# ComfyUI-Olm-Sketch, modelled in Dafny

Olm Sketch is a ComfyUI node you draw on. The drawing canvas is shown at the
bottom of the node. Pointer events paint freehand strokes or commit lines,
rectangles and ellipses. Button widgets run whole-image operations such as
crop, flip, rotate, invert, reset, wrap-around offset and blur. After each
change the drawing is sent to the Python backend. The backend keeps a bounded
set of temporary saves per drawing uid, writes a per-workflow cache file when
the user saves, writes permanent copies under the output directory, and serves
drawings back.

The project models both halves:

- **The node.** `SketchNode.Node` is a class holding:
  - the canvas bitmap, an `array2<Pixel>`;
  - the 2D-context state and its save stack;
  - a log of the strokes and fills issued;
  - the sizes, widgets and inputs LiteGraph keeps;
  - the fields of the stroke in progress.

  Each JavaScript function that updates the node becomes a method. Its
  `modifies` clause names the fields it may change. Its contract ties the new
  state to functions of the old one. Those functions are defined on values:
  - grids of pixels in `Raster`;
  - widget lists in `NodeUtils` and `OlmSketch`;
  - draw-op sequences in `DrawingTools`;
  - button rectangles in `Layouts`.

  Lemmas about these functions state what the extension promises: a crop
  keeps the right pixels, four quarter turns restore the canvas, an offset
  and its opposite cancel, inverting twice restores the canvas, buttons
  never overlap, and so on.
- **The backend.** `Backend` models the Python routes.
  - A directory is a `Directory` class over a sequence of entries with
    distinct names (name, mtime, is-file, bytes).
  - The sanitiser, uid, cache-name and temporary-name rules are functions.
  - The retention policy `cleanup_old_drawings` is two loops, each proved
    against a specification function. Lemmas then prove what the policy
    promises.
  - `save_drawing`, `save_drawing_permanent` and `load_drawing` are methods
    or functions whose error results are modelled exactly.

Where the source calls into something outside the core, the model takes the
result as a parameter:

- `cssColor`: the pixel a CSS colour string paints.
- `scaled`, `turned`, `blurred`: the browser's stretched, rotated and
  filtered renderings.
- `k`: the stylus pressure multiplier.
- `paddingX`: the node's horizontal padding constant.
- `uuid5`, `random`: uuid generation.
- `b64decode`, `normpath`: base64 decoding and path normalisation.
- `now`, `stamp`: the clock.

## Model

| member | source | states |
|---|---|---|
| Common.NumOr | web/handlers/eventHandlers.js:21 | `v \|\| d` keeps a truthy number and gives `d` for every falsy value |
| Common.StrOr | web/utils/canvasUtils.js:17 | `v \|\| d` keeps a non-empty string and gives `d` for every falsy value |
| Common.RealOr | web/drawing/drawingPreview.js:17 | `x \|\| d` on a number gives `d` exactly when `x` is zero |
| Common.JsRem | web/utils/canvasUtils.js:216 | JavaScript's `%` takes the dividend's sign and stays below the divisor's magnitude |
| Raster.Over | web/utils/canvasUtils.js:72-77 | source-over compositing: an opaque source replaces the pixel, a fully transparent one leaves it |
| Raster.OverTransparent | web/utils/canvasUtils.js:34-49 | a visible pixel drawn onto a cleared canvas is copied exactly |
| Raster.FillOverOpaque | web/utils/canvasUtils.js:174-179 | filling with an opaque colour leaves a solid canvas of that colour whatever was there |
| Raster.DrawImageOverOpaque | web/olm_sketch.js:382 | an opaque image drawn over the canvas replaces it |
| Raster.CropGridAt | web/utils/canvasUtils.js:34-49 | with margins that fit, cropped pixel `(x, y)` is original pixel `(x + left, y + top)` |
| Raster.FlipXGridInvolution | web/utils/canvasUtils.js:62-84 | mirroring across the vertical axis twice restores the image |
| Raster.FlipYGridInvolution | web/utils/canvasUtils.js:86-108 | mirroring across the horizontal axis twice restores the image |
| Raster.FlipXOverOpaque | web/utils/canvasUtils.js:72-77 | on an opaque canvas, flipX's draw over the uncleared canvas is the exact mirror and stays opaque |
| Raster.FlipYOverOpaque | web/utils/canvasUtils.js:96-101 | the same for flipY |
| Raster.FlipXOverTwiceOpaque | web/utils/canvasUtils.js:62-84 | flipping an opaque canvas twice, as flipX does it, restores it |
| Raster.FlipYOverTwiceOpaque | web/utils/canvasUtils.js:86-108 | the same for flipY |
| Raster.FlipXOverNotMirror | web/utils/canvasUtils.js:72-77 | on a canvas with a transparent pixel, flipX is neither the mirror image nor undone by a second flipX |
| Raster.FlipYOverNotMirror | web/utils/canvasUtils.js:96-101 | the same for flipY |
| Raster.RotateGrid | web/utils/canvasUtils.js:117-125 | an even number of quarter turns keeps the dimensions and an odd number swaps them |
| Raster.RotateCWTwice | web/utils/canvasUtils.js:120-125 | two clockwise quarter turns are the half turn |
| Raster.Rotate180Twice | web/utils/canvasUtils.js:120-125 | two half turns restore the image |
| Raster.RotateCWFourTimes | web/utils/canvasUtils.js:110-147 | four clockwise quarter turns restore dimensions and pixels |
| Raster.WrapOffset | web/utils/canvasUtils.js:216-217 | `((d % n) + n) % n` lands in `0..n-1` for every `d` |
| Raster.WrapOffsetIsMod | web/utils/canvasUtils.js:216-217 | that expression is the mathematical residue of `d` modulo `n` |
| Raster.WrappedChain | web/utils/canvasUtils.js:219-231 | the four conditional `putImageData` calls, made in order onto a blank canvas, give the wrapped placements |
| Raster.WrappedPlacementsAreOffset | web/utils/canvasUtils.js:219-231 | for offsets inside the canvas, the four clipped placements tile it into the toroidal shift |
| Raster.OffsetGridAt | web/utils/canvasUtils.js:188-248 | every pixel moves to `((x + ox) mod w, (y + oy) mod h)` |
| Raster.OffsetGridInverse | web/utils/canvasUtils.js:188-248 | shifting by offsets whose sums are multiples of the size restores the canvas |
| Raster.WrapOffsetRoundTrip | web/utils/canvasUtils.js:188-248 | offsetting by `(dx, dy)` and then `(-dx, -dy)` restores the canvas |
| Raster.InvertPixel | web/utils/canvasUtils.js:156-158 | inverting a pixel keeps its alpha |
| Raster.InvertGridInvolution | web/utils/canvasUtils.js:149-164 | inverting twice restores the canvas |
| Raster.ImageDataRoundTrip | web/utils/canvasUtils.js:152-161 | reading the image data out and putting it back unchanged leaves the canvas as it was |
| Raster.InvertDataIsInvertGrid | web/utils/canvasUtils.js:155-161 | the byte loop, read back through `putImageData`, inverts every pixel's colour and keeps its alpha |
| Raster.InvertAt | web/utils/canvasUtils.js:155-159 | in each pixel's four bytes the three colour bytes become `255 - v` and the alpha byte is kept |
| Raster.PutImageData | web/utils/canvasUtils.js:219 | `putImageData` replaces pixels without compositing and drops writes outside the canvas |
| Raster.NewBitmap | web/utils/canvasUtils.js:204-214 | a new canvas has the requested size and is transparent throughout |
| SketchNode.Node.constructor | web/olm_sketch.js:268-276 | with no stroke and no pending resize, the canvas has the preview size and is filled with the background colour (`#000000` when unset) |
| SketchNode.Node.SetCanvasSize | web/utils/canvasUtils.js:14-15 | assigning canvas dimensions clears the bitmap and resets the context and its save stack |
| SketchNode.Node.SaveCtx | web/drawing/drawingTools.js:4 | `ctx.save()` pushes the current state |
| SketchNode.Node.RestoreCtx | web/handlers/eventHandlers.js:96-98 | `ctx.restore()` pops the last saved state, and with none saved changes nothing (so it never throws) |
| SketchNode.Node.SendDrawingToBackend | web/olm_sketch.js:429-431 | one more save request goes to the backend and nothing on the node changes |
| CanvasUtils.AssignValue | web/olm_sketch.js:298-299 | `widget.value = v` changes only the first widget of that name, only its value |
| CanvasUtils.ResolutionReadBack | web/olm_sketch.js:295-301 | once updateResolution has run, the width and height widgets read back the new size |
| CanvasUtils.HeightUnaffected | web/olm_sketch.js:298-299 | writing the width widget does not change which widget the height lookup finds |
| CanvasUtils.ResizeCanvas | web/utils/canvasUtils.js:1-24 | the same size changes nothing. Otherwise: the new size, a background fill under the stretched old image, a pending node resize and one save |
| CanvasUtils.UpdateResolution | web/olm_sketch.js:295-301 | it throws exactly when a width or height widget is missing, with the width already written when only the height is missing; otherwise it writes both and resizes |
| CanvasUtils.ReplaceCanvas | web/utils/canvasUtils.js:51-55 | resizing and then drawing an image of the new size makes the image the canvas and resets the context |
| CanvasUtils.CropSize | web/utils/canvasUtils.js:30-32 | a crop exists exactly when both new sides are positive, and the margins plus the new size give the old size |
| CanvasUtils.ApplyCrop | web/utils/canvasUtils.js:26-60 | margins that leave no image change nothing. Otherwise the canvas becomes the cropped sub-image and a resize is pending; the save happens unless updateResolution threw |
| CanvasUtils.CropCanvas | web/utils/canvasUtils.js:34-59 | the crop of the non-empty case: new size, sub-image, context reset, widgets updated, a save unless updateResolution threw |
| CanvasUtils.FlipX | web/utils/canvasUtils.js:62-84 | the mirror is drawn over the uncleared canvas, which is the exact mirror on an opaque canvas; context state and stack kept; one save |
| CanvasUtils.FlipY | web/utils/canvasUtils.js:86-108 | the same across the horizontal axis |
| CanvasUtils.QuarterTurns | web/utils/canvasUtils.js:113 | a multiple of 90 degrees gives a clockwise quarter-turn count in `0..3` |
| CanvasUtils.VerticalIffOddTurns | web/utils/canvasUtils.js:115 | for multiples of 90, `angle % 180 !== 0` holds exactly when the quarter turns are odd |
| CanvasUtils.TurnedImage | web/utils/canvasUtils.js:117-125 | for multiples of 90 degrees the drawn image is the exact rotation |
| CanvasUtils.Rotate | web/utils/canvasUtils.js:110-147 | new dimensions are swapped exactly for non-multiples of 180; the image is turned and the context is at defaults; unless updateResolution threw, the node takes its computed size and saves |
| CanvasUtils.AdoptCanvasSize | web/utils/canvasUtils.js:143-146 | updateResolution with the canvas's own size leaves the canvas alone; then `setSize(computeSize())` and a save, unless it threw |
| CanvasUtils.FitAndSave | web/utils/canvasUtils.js:144-146 | the node takes the size computeSize returns and one save follows |
| CanvasUtils.InvertBytes | web/utils/canvasUtils.js:155-159 | the in-place loop leaves the inverted image data |
| CanvasUtils.InvertColors | web/utils/canvasUtils.js:149-164 | every pixel's colour is inverted and its alpha kept; one save |
| CanvasUtils.ResetDrawingCanvas | web/utils/canvasUtils.js:166-186 | the canvas is filled with the background widget's colour (`#000000` when falsy), giving a solid canvas when it is opaque; one save |
| CanvasUtils.OffsetDrawingCanvasWrapped | web/utils/canvasUtils.js:188-248 | without a canvas nothing happens; otherwise the image is shifted toroidally by the wrapped offsets and saved once |
| CanvasUtils.WrappedCopy | web/utils/canvasUtils.js:204-231 | the temporary canvas after the up-to-four placements holds the wrapped placements |
| CanvasUtils.PutImageDataIf | web/utils/canvasUtils.js:221-231 | a guarded `putImageData` places the image only when its guard holds |
| CanvasUtils.ApplyBlur | web/utils/canvasUtils.js:250-288 | without a canvas nothing happens; otherwise the canvas becomes the filtered copy and is saved once |
| NodeUtils.GetPreviewLocalPos | web/utils/nodeUtils.js:1-10 | the local point plus the preview origin is the panel position |
| NodeUtils.PreviewHitIsPanelRect | web/utils/nodeUtils.js:12-18 | a panel position hits the preview exactly when it is in the closed rectangle the preview covers |
| NodeUtils.PreviewDefaultCorners | web/utils/nodeUtils.js:13-16 | without a canvas the hit area is 512 by 512, edges included |
| NodeUtils.FindWidget | web/utils/nodeUtils.js:20-22 | `find` stops at the first widget of that name, or reports that there is none |
| NodeUtils.GetWidget | web/utils/nodeUtils.js:20-22 | the widget found has the name and is in the list; none exactly when no widget has it |
| NodeUtils.GetWidgetValue | web/utils/nodeUtils.js:24-26 | `?? fallback` gives the fallback only for a missing widget or a null value, never for `0`, `false` or `""` |
| NodeUtils.SetWidgetValue | web/utils/nodeUtils.js:28-34 | the widgets become those of the guarded update |
| NodeUtils.SetThenGet | web/utils/nodeUtils.js:28-34 | a value set on an existing widget reads back, and nothing else in any widget changes |
| NodeUtils.SetIgnored | web/utils/nodeUtils.js:30 | a missing widget or a null value leaves the widgets unchanged |
| NodeUtils.KeepMembers | web/utils/nodeUtils.js:53-64 | removal keeps exactly the inputs the filter does not select |
| NodeUtils.KeepNone | web/utils/nodeUtils.js:53-64 | with nothing selected every input stays, in order |
| NodeUtils.RemoveStep | web/utils/nodeUtils.js:53-64 | removing at `i` while walking backwards leaves the indices still to visit in place |
| NodeUtils.RemovedMembers | web/utils/nodeUtils.js:53-63 | an input stays exactly when the filter does not select it or its `removeInput` call throws |
| NodeUtils.KeepAllRemovable | web/utils/nodeUtils.js:53-63 | when no removal throws, the inputs kept are exactly the unselected ones, in order |
| NodeUtils.RemoveInputs | web/utils/nodeUtils.js:44-65 | if the guard fails nothing changes; otherwise every selected input whose removal does not throw is removed and the rest stay, in their original order |
| Layouts.ElementWidth | web/widgets/layouts.js:12 | `el.width \|\| BUTTON_WIDTH` is always positive |
| Layouts.MaxPerRow | web/widgets/layouts.js:21-24 | there is always at least one button per row |
| Layouts.SingleRowLayout | web/widgets/layouts.js:7-17 | the loop's positions are the single-row rectangles, whose shape and spacing the lemmas below state |
| Layouts.MultiRowLayout | web/widgets/layouts.js:19-34 | the loop's positions are the grid rectangles, column `i mod maxPerRow` of row `i div maxPerRow` |
| Layouts.RunLayout | web/widgets/createInteractiveWidgets.js:16-20 | the configured layout runs with one rectangle per element |
| Layouts.PrefixWidthMonotone | web/widgets/layouts.js:14 | the running `x` never decreases |
| Layouts.SingleRowShape | web/widgets/layouts.js:12-13 | every single-row button is on the top line, 20 high, and as wide as its element |
| Layouts.SingleRowDisjoint | web/widgets/layouts.js:11-15 | single-row buttons run left to right, each ending at least `spacing` before the next starts |
| Layouts.MultiRowFits | web/widgets/layouts.js:19-34 | when one button fits, every multi-row button lies within the width |
| Layouts.MultiRowDisjoint | web/widgets/layouts.js:26-32 | no two multi-row buttons overlap |
| InteractiveWidgets.MaxBottom | web/widgets/createInteractiveWidgets.js:22-24 | the reduce gives the lowest bottom edge, or 0 for no buttons |
| InteractiveWidgets.ComputeSize | web/widgets/createInteractiveWidgets.js:12-29 | the width is `availableWidth \|\| node width \|\| 200`, and the height is at least the padding |
| InteractiveWidgets.SingleRowHeight | web/widgets/createInteractiveWidgets.js:22-26 | a single row is one button high plus the padding |
| InteractiveWidgets.MultiRowHeight | web/widgets/createInteractiveWidgets.js:22-26 | a grid ends at the bottom of the row holding the last element |
| InteractiveWidgets.HitIndex | web/widgets/createInteractiveWidgets.js:74-89 | the first button whose closed rectangle contains the point, or -1 exactly when none does |
| InteractiveWidgets.InteractiveWidget.constructor | web/widgets/createInteractiveWidgets.js:3-10 | nothing hovered, nothing pressed, nothing drawn yet |
| InteractiveWidgets.InteractiveWidget.Draw | web/widgets/createInteractiveWidgets.js:31-39 | remembers the offset and the layout of the buttons in the padded width |
| InteractiveWidgets.InteractiveWidget.HitTest | web/widgets/createInteractiveWidgets.js:74-89 | the loop finds the first hit |
| InteractiveWidgets.InteractiveWidget.Mouse | web/widgets/createInteractiveWidgets.js:68-119 | before a draw nothing is handled. Move hovers; down presses; up fires only the button both pressed and released on, then clears the press; leave clears both. Handled exactly when over a button |
| NodeSize.BaseWidth | web/olm_sketch.js:550-552 | the width is `max(canvas width + padding, 300)` |
| NodeSize.ComputeSize | web/olm_sketch.js:549-572 | the loop returns the base width and the header plus canvas plus visible widget heights |
| NodeSize.VisibleHeightAppend | web/olm_sketch.js:558-569 | the heights of two runs of widgets add up |
| NodeSize.HideOne | web/olm_sketch.js:558 | hiding a visible widget takes exactly its height off the node |
| NodeSize.AllHiddenHeight | web/olm_sketch.js:554-558 | with every widget hidden the node is header plus canvas |
| OlmSketch.ReorderWidgets | web/olm_sketch.js:68-116 | fewer than two widgets stay as they are; otherwise the first widget of each name in the order, in that order |
| OlmSketch.PickMembers | web/olm_sketch.js:71-111 | every kept widget is an original with a name from the order, and every name that has a widget keeps it |
| OlmSketch.GetFromPick | web/olm_sketch.js:113 | after reordering a lookup by a name in the order finds what it found before; other names find nothing |
| OlmSketch.ReorderIdempotent | web/olm_sketch.js:68-116 | reordering twice is the same as reordering once |
| OlmSketch.ReorderKeepsNamed | web/olm_sketch.js:91-111 | widgets not in the order are dropped; the first widget of each ordered name is kept |
| OlmSketch.HideAllEffect | web/olm_sketch.js:154-168 | exactly the first widget of each name is hidden with a zero size; nothing else, names and values included, changes |
| OlmSketch.HideInternalWidgets | web/olm_sketch.js:154-168 | the loop hides the four internal widgets |
| OlmSketch.InternalWidgetsHidden | web/olm_sketch.js:161-167 | each existing internal widget ends hidden and adds nothing to the node's height |
| OlmSketch.RemoveInternalInputs | web/olm_sketch.js:485-495 | when the guard allows, an input stays exactly when it is not one of the four internal inputs or its removal throws |
| OlmSketch.OnDrawForeground | web/olm_sketch.js:574-594 | nothing when collapsed. The ghost is drawn exactly while a shape tool drags; a pending resize is consumed, with the new size taken only when the height differs |
| OlmSketch.RenderImage | web/olm_sketch.js:372-388 | the canvas takes the image's size with the image drawn over the background; width and height widgets are set; the node is resized; one save |
| OlmSketch.ResizeAndLabel | web/olm_sketch.js:373-380 | resize, background fill and widget values of renderImage's first half |
| OlmSketch.DrawAndSave | web/olm_sketch.js:382-387 | the image is drawn over the canvas, the node is resized and saved |
| OlmSketch.SetIsAssign | web/utils/nodeUtils.js:28-34 | a guarded set of a defined value is the plain assignment |
| OlmSketch.ClearToBackground | web/olm_sketch.js:373-377 | the canvas is resized and filled with the background colour |
| OlmSketch.DrawImage | web/olm_sketch.js:382 | a same-sized image is composited over the canvas |
| OlmSketch.SetResolutionWidgets | web/olm_sketch.js:379-380 | the width and height widgets receive the image's size |
| OlmSketch.FillBackground | web/olm_sketch.js:376-377 | the fill style becomes the background colour and the canvas is filled with it |
| OlmSketch.RenderedResolution | web/olm_sketch.js:379-380 | after rendering, existing width and height widgets read back the image's size |
| DrawingTools.Floor | web/drawing/drawingTools.js:24-27 | `Math.floor` gives the largest integer not above its argument |
| DrawingTools.RectPath | web/drawing/drawingTools.js:24-29 | the corner is within half a pixel of the start and the size is the drag floored, negative for drags left or up |
| DrawingTools.EllipsePath | web/drawing/drawingTools.js:45-50 | the ellipse's bounding box is exactly the box the two points span |
| DrawingTools.FillThenStroke | web/drawing/drawingTools.js:30-35 | with fill: a fill then a stroke, both one pixel wide; without: a single stroke |
| DrawingTools.RectangleOpsShape | web/drawing/drawingTools.js:16-37 | every op of a rectangle is drawn at the given alpha and colour, square-cornered, unsmoothed, on one box |
| DrawingTools.EllipseOpsShape | web/drawing/drawingTools.js:39-58 | every op of an ellipse is drawn at the given alpha and colour, unsmoothed, on one ellipse |
| DrawingTools.DrawLine | web/drawing/drawingTools.js:3-14 | one round-capped segment from start to last position, and the context is left as found |
| DrawingTools.DrawRectangle | web/drawing/drawingTools.js:16-37 | the snapped box, optionally filled first, and the context is left as found |
| DrawingTools.DrawEllipse | web/drawing/drawingTools.js:39-58 | the inscribed ellipse, optionally filled first, and the context is left as found |
| DrawingTools.DrawClosed | web/drawing/drawingTools.js:30-35 | the optional fill and then the stroke, with the fill's width and colour left on the context |
| DrawingPreview.GhostOutline | web/drawing/drawingPreview.js:20-39 | an outline exactly for a shape tool, of that tool's kind |
| DrawingPreview.GhostShape | web/drawing/drawingPreview.js:1-42 | nothing without both endpoints; otherwise a clip to the preview with a dashed translucent stroke (`\|\| 2` width) and the tool's outline |
| DrawingPreview.GhostLineRoundTrip | web/drawing/drawingPreview.js:6-9 | the ghost's anchor is the offset the pointer handlers subtract, both ways |
| DrawingPreview.ClipIsPreview | web/drawing/drawingPreview.js:11-14 | a local point is in the preview exactly when its ghost image is in the clip |
| DrawingPreview.GhostRectVsCommitted | web/drawing/drawingPreview.js:25-30 | the unsnapped ghost rectangle is within half a pixel of the committed one, and at most one pixel larger |
| DrawingPreview.GhostEllipseIsCommitted | web/drawing/drawingPreview.js:31-38 | the ghost ellipse is the committed ellipse moved by the anchor |
| EventHandlers.PressureFactor | web/handlers/eventHandlers.js:29-30 | the factor is never zero: 1 for non-pens and for missing or zero pressure, otherwise pressure times the multiplier |
| EventHandlers.Restored | web/handlers/eventHandlers.js:96-98 | the state after `restore()` pops the stack, or with an empty stack keeps both |
| EventHandlers.CommitOps | web/handlers/eventHandlers.js:107-119 | nothing for freehand, one stroke for a line, the optional fill and a stroke for a rectangle or ellipse |
| EventHandlers.CommitUsesBaseAlpha | web/handlers/eventHandlers.js:109 | every committed op uses the unscaled base alpha |
| EventHandlers.MouseDown | web/handlers/eventHandlers.js:13-56 | a press outside the preview changes nothing. Inside: the stroke starts, bases come from widgets (2, `#ffffff`, 1.0), scaled by the pressure; freehand saves and paints a dot when the app canvas exists |
| EventHandlers.StartStroke | web/handlers/eventHandlers.js:19-55 | the full stroke-start state from the press point and pressure factor |
| EventHandlers.BeginStroke | web/handlers/eventHandlers.js:19-39 | endpoints, bases, scaled width and alpha, and the context set for a round stroke |
| EventHandlers.MouseUp | web/handlers/eventHandlers.js:94-125 | restore first. Not drawing: false and `lastPos` cleared. Drawing: the tool's shape is committed and saved once, and the stroke ends |
| EventHandlers.CommitShape | web/handlers/eventHandlers.js:107-119 | the tool's ops are appended and the context is left as found |
| EventHandlers.MouseMove | web/handlers/eventHandlers.js:58-92 | undefined and no change when not drawing. The button released runs mouse-up and answers false. Otherwise this event's pressure scales width and alpha, freehand paints a segment, and `lastPos` advances |
| EventHandlers.PaintMove | web/handlers/eventHandlers.js:78-89 | the context takes the width and alpha, only freehand appends a segment, and `lastPos` moves |
| EventHandlers.MouseLeave | web/handlers/eventHandlers.js:127-137 | not drawing: nothing. Drawing: restore, abandon without a shape, clear `lastPos`, save once |
| CropEditor.Margin | web/widgets/cropEditorWidget.js:23 | `max(0, parseInt(v) \|\| 0)` is non-negative, keeps a non-negative number and gives 0 for NaN |
| CropEditor.ClampMargin | web/widgets/cropEditorWidget.js:24 | a clamped margin plus its opposite never exceeds the side; it is kept when it fits and otherwise fills the side exactly |
| CropEditor.ClampNonNegative | web/widgets/cropEditorWidget.js:24 | a clamped margin is negative exactly when the opposite margin alone exceeds the side |
| CropEditor.CropRowWidth | web/widgets/cropEditorWidget.js:16-63 | the five buttons span 260 pixels without overlapping |
| CropEditor.CropData.constructor | web/widgets/cropEditorWidget.js:8 | every margin starts at 0 |
| CropEditor.CropData.SetLeft | web/widgets/cropEditorWidget.js:21-25 | a cancelled dialog changes nothing; an answer is clamped so that left plus right fits the width |
| CropEditor.CropData.SetRight | web/widgets/cropEditorWidget.js:32-36 | the same for the right margin |
| CropEditor.CropData.SetTop | web/widgets/cropEditorWidget.js:43-47 | the same for the top margin against the height |
| CropEditor.CropData.SetBottom | web/widgets/cropEditorWidget.js:54-58 | the same for the bottom margin |
| CropEditor.GuardMatchesCrop | web/widgets/cropEditorWidget.js:69-72 | on a canvas, the button's guard passes exactly when applyCrop has a non-empty crop |
| CropEditor.CropPressed | web/widgets/cropEditorWidget.js:64-86 | refused exactly when the guard fires; declined without a change; without a canvas nothing changes; otherwise the canvas is cropped to the margins, the context is reset, the resolution widgets take the new size and a save follows unless that update threw |
| CropEditor.EditedMarginsFit | web/widgets/cropEditorWidget.js:65-72 | for margins the dialogs left, the guard refuses only when a pair uses up a whole side |
| Backend.SafeWorkflowName | olm_sketch.py:211 | every character outside `[a-zA-Z0-9_-]` becomes `_` and the length is kept |
| Backend.SafeNameAllowed | olm_sketch.py:211 | sanitised names use allowed characters only, and a name is unchanged exactly when it has no other |
| Backend.SafeNameIdempotent | olm_sketch.py:326 | sanitising twice is sanitising once |
| Backend.EnsureDrawingUid | olm_sketch.py:184-195 | a real uid is kept; otherwise uuid5 of the node id, or a random uuid without one |
| Backend.UidStable | olm_sketch.py:184-195 | a returned uid is returned again by later calls, and with a node id the random source does not matter |
| Backend.CacheName | olm_sketch.py:244 | the cache name starts with `drawing_` and embeds the workflow name |
| Backend.DecimalRoundTrip | olm_sketch.py:231-232 | the millisecond stamp's digits read back as the stamp |
| Backend.TempNameShape | olm_sketch.py:232 | a temporary save has its uid's cleanup prefix, and different stamps give different names |
| Backend.Filter | olm_sketch.py:157-158 | the list comprehension keeps exactly the accepted entries |
| Backend.FilterDistinct | olm_sketch.py:157-158 | filtering keeps names distinct |
| Backend.FilterPermutation | olm_sketch.py:156-172 | filtering commutes with rearranging |
| Backend.FilterConcat | olm_sketch.py:157-158 | filtering distributes over concatenation |
| Backend.FilterCommute | olm_sketch.py:157-158 | two filters commute |
| Backend.WithoutTwice | olm_sketch.py:165 | deleting two sets of names in turn deletes their union |
| Backend.Directory.Remove | olm_sketch.py:165 | `os.remove` deletes exactly that name, names stay distinct |
| Backend.Directory.Write | olm_sketch.py:235-236 | writing creates or replaces exactly that name, names stay distinct |
| Backend.WrittenDistinct | olm_sketch.py:235-236 | after a write the name exists and names are distinct |
| Backend.InsertSorted | olm_sketch.py:156-160 | insertion keeps the listing sorted by mtime and adds exactly one entry |
| Backend.SortByMtime | olm_sketch.py:156-160 | `sorted(key=mtime)` is oldest first and a permutation of the listing |
| Backend.ExpiredNamesOf | olm_sketch.py:162-166 | a name is deleted by the first loop exactly when a visited entry of that name is older than the limit |
| Backend.ExpireByNames | olm_sketch.py:162-166 | deleting those names is deleting every expired candidate |
| Backend.PermutationDistinct | olm_sketch.py:156-160 | the sorted listing keeps the distinct names |
| Backend.TrimKeeps | olm_sketch.py:174-177 | deleting the first `k` of the listing leaves exactly its other candidates and every non-candidate |
| Backend.CleanupOldDrawings | olm_sketch.py:151-181 | the directory after both passes is the specified cleanup, names distinct |
| Backend.DeleteExpired | olm_sketch.py:162-166 | the first loop deletes exactly the candidates older than the limit |
| Backend.DeleteIfExpired | olm_sketch.py:163-165 | one turn of the first loop |
| Backend.DeleteExcess | olm_sketch.py:168-178 | the second loop deletes exactly the oldest candidates beyond `max_files` |
| Backend.DeleteOldest | olm_sketch.py:176-177 | one turn of the second loop |
| Backend.ExpireEffect | olm_sketch.py:162-166 | after the first pass no candidate is expired, only candidates are gone |
| Backend.CleanupKeeps | olm_sketch.py:151-181 | cleanup deletes only candidates and no survivor is expired |
| Backend.TrimSubset | olm_sketch.py:168-178 | the second pass deletes only candidates |
| Backend.CleanupCount | olm_sketch.py:174-177 | after cleanup `min(n, max_files)` of the `n` unexpired candidates remain |
| Backend.CleanupOldestFirst | olm_sketch.py:168-178 | no dropped candidate is younger than a kept one |
| Backend.CleanupIdempotent | olm_sketch.py:151-181 | a second cleanup at the same moment deletes nothing |
| Backend.CommaField | olm_sketch.py:224 | `split(',')[1]` exists exactly when there is a comma and holds no comma |
| Backend.FirstIndex | olm_sketch.py:297 | the first occurrence of a character |
| Backend.AfterFirstComma | olm_sketch.py:297 | `split(',', 1)[1]` exists exactly when there is a comma, and is what follows the first one |
| Backend.SaveDrawing | olm_sketch.py:198-272 | each error (not a data URL, no payload, bad base64) arises exactly in its case and touches nothing; otherwise cleanup plus the temporary save, and the cache file on a user save |
| Backend.SaveBoundsTemporaries | olm_sketch.py:229-236 | after a save at most 51 temporary saves of the uid exist, including the new one |
| Backend.RemoveDotDot | olm_sketch.py:290 | `replace("..", "")` leaves no `..` and adds no character |
| Backend.StripLeft | olm_sketch.py:290 | the result is a suffix that does not start with a slash |
| Backend.StripRight | olm_sketch.py:290 | the result is a prefix that does not end with a slash |
| Backend.SaveDirectorySafe | olm_sketch.py:290 | whatever `normpath` yields, the directory has no `..`, and no slash at its start or end |
| Backend.Basename | olm_sketch.py:288 | the basename has no slash and is a suffix of the path |
| Backend.SaveFileNameShape | olm_sketch.py:286-288 | the file name has no slash and ends in `.png`; a plain `.png` name is kept |
| Backend.BasenameAppend | olm_sketch.py:286-288 | a slash-free tail stays at the end of the basename |
| Backend.ComponentsNoDotDot | olm_sketch.py:290-291 | a path with no `..` has no `..` component |
| Backend.ComponentsAppend | olm_sketch.py:300 | joining a slash-free name adds exactly one component |
| Backend.PermanentPathContained | olm_sketch.py:283-300 | the permanent save's path is relative, has no `..` component, and ends in the file name |
| Backend.SavePermanent | olm_sketch.py:275-315 | each error (empty data, no comma, bad payload) arises exactly in its case and touches nothing; otherwise the bytes are written at the contained path |
| Backend.LoadCacheNameAsWritten | olm_sketch.py:352 | the load route's cache name is built from the unsanitised workflow name |
| Backend.LoadMissesSavedCache | olm_sketch.py:352 | for the workflow name `my flow` the load route asks for a file the save route never wrote |
| Backend.LoadCacheName | olm_sketch.py:244 | the corrected name is the one the save route writes, and agrees with the as-written one on names needing no sanitising |
| Backend.LoadDrawing | olm_sketch.py:318-368 | corrected route: refused exactly without a uid; an existing named temporary file is served; otherwise the cache file under the sanitised workflow name, the one the save route writes |
| Backend.LoadDrawingAsWritten | olm_sketch.py:318-368 | the route as written: the same refusal and temporary file, otherwise the cache file under the workflow name as given |
| Backend.LoadRoutesAgree | olm_sketch.py:350-353 | the two routes refuse and serve temporary files alike, and agree entirely on workflow names that need no sanitising |
| Backend.LoadDrawingAsWrittenMissesSave | olm_sketch.py:352 | for `my flow` without its temporary file, the route as written does not serve the cache file a user save wrote |
| Backend.DrawingSource | olm_sketch.py:100-133 | the named temporary file if it exists, else the cache file if it exists, else blank; an empty name gives blank |
| Backend.SavedCacheIsFound | olm_sketch.py:239-254 | after a user save, a later run and a load without their temporary file both read the cache file the save wrote |

## Left out

- `hexToRgba` and the colour utilities are not part of this model. A stroke style is kept as the pair (hex, alpha).
- Strokes and fills are not rasterised. They are appended to the node's op log with the context state in force.
- The blur filter, the stretched copy of resizeCanvas and rotation by angles that are not multiples of 90 degrees are browser renderings. They are parameters (`blurred`, `scaled`, `turned`).
- Raster.Over: partial alpha is a floor-rounded, non-premultiplied approximation of the browser's compositing. Only the opaque and fully transparent cases are exact, and only those are relied on.
- Premultiplied storage is not modelled. A pixel with alpha 0 keeps its colour bytes in the model: inverting a cleared canvas stores `(255, 255, 255, 0)`, where a browser would read back `(0, 0, 0, 0)`. Such pixels are invisible either way.
- The input and confirmation dialogs (`showInputDialog`, `showConfirmDialog`) are not modelled. Their answers are parameters.
- `previewRenderer.js`, `drawPreviewCanvas`, button labels, fonts and `setDirtyCanvas` only paint the LiteGraph panel. They are not modelled.
- onConfigure's reload of the drawing from the backend, and the widget callbacks set in `initWidgets`, are not modelled. Only its removal of the internal inputs is.
- `PADDING_X`, `STYLUS_PRESSURE_MULTIPLIER` and the preview size live in a constants file that is not part of this model. They are parameters.
- NaN and `undefined` numbers never arise in the model. A missing pressure becomes `None`, which gives factor 1.0, as NaN does in the source.
- NodeUtils.SetWidgetValue: the `widget.setValue` callback is foreign code and is not modelled.
- Zero-sized canvases are excluded: the node's invariant requires both sides to be at least 1.
- Widgets are values in the node's list. Aliasing between a widget object and the node's own fields (such as `backgroundColor` versus the background widget) is not modelled.
- CanvasUtils.ResizeCanvas (and every method that requires `node.hasCanvas` without a source guard): the source throws when there is no canvas. The model makes that a precondition instead of an error path, because the source never reaches those calls without a canvas.
- The backend's exception handling (500 and `FileNotFoundError` responses, `try` around cleanup), `os.makedirs`, PIL image handling, LANCZOS resizing, `parse_color`, `is_dark_color`, the tensors and the aiohttp plumbing are not modelled. Errors are `Result` values.
- Backend.LoadDrawing: the query's `drawing_filename` is looked up as a flat name in the temporary directory. The source joins it with `os.path.join`, so a name containing `../` or an absolute path reaches outside that directory; `generate_drawing` (line 101) does the same, and so does a raw workflow name in the cache path of the route as written. Paths outside the directory are not modelled.
- NodeUtils.RemoveInputs: whether `node.removeInput` throws is the parameter `removable`, a property of the input alone; the graph state it depends on is not modelled.
- EventHandlers.MouseMove: when the button is released, the source's onMouseUp first offers the event to the interactive widgets (web/olm_sketch.js:529-543). The model takes whether a widget consumed it as the parameter `upConsumed`, and the widget state that loop changes is not modelled.
- Backend.LoadDrawing: `web.FileResponse` of a missing cache file (a 404 at response time) is not modelled. The function returns the name it would serve.
- `backendUtils.js` (the browser side of the save request) is not part of this model. A save is the counter `saves`.
- Backend.SavePermanent: `os.path.normpath` is a parameter, so containment is proved for every normalisation, and every Python string is read as POSIX.
- File modification times are given. Two saves at the same millisecond are outside the model.

## Findings

| source | as written | input that shows it | evidently intended | confidence | as-written member | corrected member |
|---|---|---|---|---|---|---|
| olm_sketch.py:352 | the load route builds the cache name from the raw `workflow_name` | workflow name `my flow`: save writes `drawing_my_flow_u.png`, load asks for `drawing_my flow_u.png` | use `safe_workflow_name`, as the save route does at line 244 | not executed | Backend.LoadCacheNameAsWritten | Backend.LoadCacheName |
| olm_sketch.py:350-353 | `load_drawing` falls back to that raw cache name | workflow name `my flow` with its temporary file gone: the user's saved drawing is not served | serve the sanitised cache name | not executed | Backend.LoadDrawingAsWritten | Backend.LoadDrawing |
| web/utils/canvasUtils.js:72-77 | flipX draws the mirror over the uncleared canvas, where rotate clears first (line 136) | a 2 by 1 canvas with one transparent pixel: the result keeps the old opaque pixel, and a second flipX does not undo the first | clear the canvas before drawing the mirror | not executed | Raster.FlipXOverNotMirror | Raster.FlipXGridInvolution |
| web/utils/canvasUtils.js:96-101 | flipY draws the mirror over the uncleared canvas | a 1 by 2 canvas with one transparent pixel: the result keeps the old opaque pixel | clear the canvas before drawing the mirror | not executed | Raster.FlipYOverNotMirror | Raster.FlipYGridInvolution |
