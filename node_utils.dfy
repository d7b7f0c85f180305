/**
 * Node helpers: the mapping between panel coordinates and the drawing
 * canvas shown at the bottom of the node, the inclusive hit test of that
 * preview, widget lookup by name, guarded widget update, and removal of
 * node inputs by a filter.
 */
module NodeUtils {
  import opened Common
  import opened SketchNode

  /** The preview's top edge sits this far above the node's bottom edge plus the canvas height. */
  const PreviewBottomMargin: real := 40.0

  /** The canvas size every size rule assumes when there is no canvas. */
  const DefaultCanvasSide: int := 512

  /** The panel position of the preview's top-left corner: centred horizontally, 40 above the bottom. */
  function PreviewOrigin(sizeW: real, sizeH: real, canvasW: int, canvasH: int): Point {
    Point(sizeW / 2.0 - canvasW as real / 2.0, sizeH - canvasH as real - PreviewBottomMargin)
  }

  /** getPreviewLocalPos: a panel position in the canvas's own pixel coordinates. */
  function GetPreviewLocalPos(sizeW: real, sizeH: real, canvasW: int, canvasH: int, pos: Point): (local: Point)
    ensures local.Plus(PreviewOrigin(sizeW, sizeH, canvasW, canvasH)) == pos
    ensures local.x == pos.x - (sizeW / 2.0 - canvasW as real / 2.0)
    ensures local.y == pos.y - (sizeH - canvasH as real - PreviewBottomMargin)
  {
    pos.Minus(PreviewOrigin(sizeW, sizeH, canvasW, canvasH))
  }

  /** `drawingCanvas?.width || 512` (a canvas is never zero-sized here). */
  function CanvasWidthOr512(hasCanvas: bool, width: int): int {
    if hasCanvas then width else DefaultCanvasSide
  }

  function CanvasHeightOr512(hasCanvas: bool, height: int): int {
    if hasCanvas then height else DefaultCanvasSide
  }

  /** isInsidePreview: the local point lies on the canvas, edges included. */
  predicate IsInsidePreview(hasCanvas: bool, canvasW: int, canvasH: int, p: Point) {
    var w, h := CanvasWidthOr512(hasCanvas, canvasW), CanvasHeightOr512(hasCanvas, canvasH);
    p.x >= 0.0 && p.y >= 0.0 && p.x <= w as real && p.y <= h as real
  }

  /**
   * A panel position hits the preview exactly when it lies in the closed
   * rectangle the preview occupies on the node.
   */
  lemma PreviewHitIsPanelRect(sizeW: real, sizeH: real, canvasW: int, canvasH: int, pos: Point)
    ensures var o := PreviewOrigin(sizeW, sizeH, canvasW, canvasH);
      IsInsidePreview(true, canvasW, canvasH, GetPreviewLocalPos(sizeW, sizeH, canvasW, canvasH, pos))
      <==> (o.x <= pos.x <= o.x + canvasW as real && o.y <= pos.y <= o.y + canvasH as real)
  {
  }

  /** Without a canvas the hit test uses a 512-by-512 preview, corners included. */
  lemma PreviewDefaultCorners(canvasW: int, canvasH: int)
    ensures IsInsidePreview(false, canvasW, canvasH, Point(0.0, 0.0))
    ensures IsInsidePreview(false, canvasW, canvasH, Point(512.0, 512.0))
    ensures !IsInsidePreview(false, canvasW, canvasH, Point(512.5, 0.0))
    ensures !IsInsidePreview(false, canvasW, canvasH, Point(0.0, -0.5))
  {
  }

  /** The index getWidget's `find` stops at: the first widget with that name. */
  function FindWidget(ws: seq<Widget>, name: string): (r: Option<nat>)
    ensures r.Some? ==> r.value < |ws| && ws[r.value].name == name
    ensures r.Some? ==> forall j :: 0 <= j < r.value ==> ws[j].name != name
    ensures r.None? <==> forall j :: 0 <= j < |ws| ==> ws[j].name != name
  {
    if |ws| == 0 then None
    else if ws[0].name == name then Some(0)
    else match FindWidget(ws[1..], name)
      case None => None
      case Some(i) => Some(i + 1)
  }

  /** getWidget. */
  function GetWidget(ws: seq<Widget>, name: string): (r: Option<Widget>)
    ensures r.Some? ==> r.value in ws && r.value.name == name
    ensures r.None? <==> forall j :: 0 <= j < |ws| ==> ws[j].name != name
  {
    match FindWidget(ws, name)
    case None => None
    case Some(i) => Some(ws[i])
  }

  /**
   * getWidgetValue: `getWidget(...)?.value ?? fallback`. Only a missing widget
   * or a null/undefined value yields the fallback; `0`, `false` and `""` pass
   * through.
   */
  function GetWidgetValue(ws: seq<Widget>, name: string, fallback: Value): (v: Value)
    ensures GetWidget(ws, name).None? ==> v == fallback
    ensures GetWidget(ws, name).Some? && GetWidget(ws, name).value.value != Nil ==> v == GetWidget(ws, name).value.value
    ensures GetWidget(ws, name).Some? && GetWidget(ws, name).value.value == Nil ==> v == fallback
  {
    match GetWidget(ws, name)
    case None => fallback
    case Some(w) => if w.value == Nil then fallback else w.value
  }

  /** The widget list after setWidgetValue. */
  function SetValueIn(ws: seq<Widget>, name: string, val: Value): (r: seq<Widget>)
    ensures |r| == |ws|
  {
    match FindWidget(ws, name)
    case None => ws
    case Some(i) => if val == Nil then ws else ws[i := ws[i].(value := val)]
  }

  /** setWidgetValue: stores `val` in the named widget unless the widget is missing or `val` is null/undefined. */
  method SetWidgetValue(node: Node, name: string, val: Value)
    modifies node`widgets
    ensures node.widgets == SetValueIn(old(node.widgets), name, val)
  {
    var i := FindWidget(node.widgets, name);
    if i.Some? && val != Nil {
      node.widgets := node.widgets[i.value := node.widgets[i.value].(value := val)];
    }
  }

  /** A value that was set is read back; every other widget, and every other field of it, is untouched. */
  lemma SetThenGet(ws: seq<Widget>, name: string, val: Value, fallback: Value)
    requires GetWidget(ws, name).Some? && val != Nil
    ensures GetWidgetValue(SetValueIn(ws, name, val), name, fallback) == val
    ensures var i := FindWidget(ws, name).value; var r := SetValueIn(ws, name, val);
      r[i].name == ws[i].name && r[i].hidden == ws[i].hidden && r[i].size == ws[i].size
      && forall j :: 0 <= j < |ws| && j != i ==> r[j] == ws[j]
  {
    var i := FindWidget(ws, name).value;
    var r := SetValueIn(ws, name, val);
    assert r[i].name == name;
    assert forall j :: 0 <= j < i ==> r[j].name != name;
    FindFirst(r, name, i);
  }

  lemma FindFirst(ws: seq<Widget>, name: string, i: nat)
    requires i < |ws| && ws[i].name == name
    requires forall j :: 0 <= j < i ==> ws[j].name != name
    ensures FindWidget(ws, name) == Some(i)
  {
  }

  /** A missing widget or an undefined value leaves the widgets as they were. */
  lemma SetIgnored(ws: seq<Widget>, name: string, val: Value)
    requires GetWidget(ws, name).None? || val == Nil
    ensures SetValueIn(ws, name, val) == ws
  {
  }

  /** The inputs `filter` does not select, in their original order. */
  function Keep(s: seq<Input>, filter: Input -> bool): (r: seq<Input>)
    ensures |r| <= |s|
  {
    if |s| == 0 then [] else (if filter(s[0]) then [] else [s[0]]) + Keep(s[1..], filter)
  }

  /** Keep removes exactly the selected inputs. */
  lemma {:induction false} KeepMembers(s: seq<Input>, filter: Input -> bool)
    ensures forall x :: x in Keep(s, filter) <==> x in s && !filter(x)
  {
    if |s| > 0 {
      KeepMembers(s[1..], filter);
      assert s == [s[0]] + s[1..];
    }
  }

  /** With nothing selected, every input is kept. */
  lemma {:induction false} KeepNone(s: seq<Input>, filter: Input -> bool)
    requires forall j :: 0 <= j < |s| ==> !filter(s[j])
    ensures Keep(s, filter) == s
  {
    if |s| > 0 {
      KeepNone(s[1..], filter);
      assert s == [s[0]] + s[1..];
    }
  }

  /** One step of the backward walk: removing input `i`, or keeping it, extends the kept suffix by one. */
  lemma RemoveStep(s: seq<Input>, i: int, cur: seq<Input>, filter: Input -> bool)
    requires 0 <= i < |s| && cur == s[..i + 1] + Keep(s[i + 1..], filter)
    ensures i < |cur| && cur[i] == s[i]
    ensures filter(s[i]) ==> cur[..i] + cur[i + 1..] == s[..i] + Keep(s[i..], filter)
    ensures !filter(s[i]) ==> cur == s[..i] + Keep(s[i..], filter)
  {
    assert s[i..][0] == s[i] && s[i..][1..] == s[i + 1..];
    assert s[..i + 1] == s[..i] + [s[i]];
    assert cur[..i] == s[..i] && cur[i + 1..] == Keep(s[i + 1..], filter);
  }

  lemma KeepEnds(s: seq<Input>, filter: Input -> bool)
    ensures s[..|s|] + Keep(s[|s|..], filter) == s
    ensures s[..0] + Keep(s[0..], filter) == Keep(s, filter)
  {
    assert s[..|s|] == s && s[|s|..] == [];
    assert s[..0] == [] && s[0..] == s;
  }

  /** The guard of removeInputs. */
  predicate RemovalAllowed(nodeType: string, id: int, inputs: Option<seq<Input>>) {
    nodeType == "OlmSketch" && id != -1 && inputs.Some?
  }

  /**
   * What removeInputs takes out: an input the filter selects and whose
   * `node.removeInput` call does not throw. `removable` stands for the graph
   * side; an input whose removal throws ("graph not ready") is caught,
   * reported and left in place.
   */
  function Removed(filter: Input -> bool, removable: Input -> bool): (f: Input -> bool)
    ensures forall x :: f(x) <==> filter(x) && removable(x)
  {
    x => filter(x) && removable(x)
  }

  /** After removeInputs an input is kept exactly when it was not selected or its removal threw. */
  lemma RemovedMembers(s: seq<Input>, filter: Input -> bool, removable: Input -> bool)
    ensures forall x :: x in Keep(s, Removed(filter, removable)) <==> x in s && (!filter(x) || !removable(x))
  {
    KeepMembers(s, Removed(filter, removable));
  }

  /** When no removal throws, removeInputs keeps exactly what the filter does not select. */
  lemma {:induction false} KeepAllRemovable(s: seq<Input>, filter: Input -> bool, removable: Input -> bool)
    requires forall j :: 0 <= j < |s| ==> removable(s[j])
    ensures Keep(s, Removed(filter, removable)) == Keep(s, filter)
  {
    if |s| > 0 {
      KeepAllRemovable(s[1..], filter, removable);
    }
  }

  /**
   * removeInputs: unless the guard fails, walks the inputs from the last to
   * the first and removes each one the filter selects, so the indices still
   * to visit never shift. A removal that throws is skipped.
   */
  method RemoveInputs(node: Node, filter: Input -> bool, removable: Input -> bool)
    modifies node`inputs
    ensures !RemovalAllowed(node.nodeType, node.id, old(node.inputs)) ==> node.inputs == old(node.inputs)
    ensures RemovalAllowed(node.nodeType, node.id, old(node.inputs)) ==>
      node.inputs == Some(Keep(old(node.inputs).value, Removed(filter, removable)))
  {
    if !RemovalAllowed(node.nodeType, node.id, node.inputs) {
      return;
    }
    var s := node.inputs.value;
    var removed := Removed(filter, removable);
    KeepEnds(s, removed);
    var i := |s| - 1;
    while i >= 0
      invariant -1 <= i < |s|
      invariant node.inputs == Some(s[..i + 1] + Keep(s[i + 1..], removed))
    {
      RemoveStep(s, i, node.inputs.value, removed);
      if filter(node.inputs.value[i]) {
        if removable(node.inputs.value[i]) {
          // node.removeInput(i) succeeds
          node.inputs := Some(node.inputs.value[..i] + node.inputs.value[i + 1..]);
        }
        // otherwise the exception is caught and the input stays
      }
      i := i - 1;
    }
  }
}
