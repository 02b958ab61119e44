/** The annotation editor of static/app.js: the box list, the selection,
    the bounded undo/redo history and the view state, updated in place by
    the pointer, wheel and keyboard handlers. Pointer positions arrive
    already mapped to canvas pixels. */
module Editor {
  import opened Types
  import opened Geometry
  import History
  import Strings

  /** A drag whose width and height are both below this is a click. */
  const ClickThreshold: real := 6.0
  const MinZoom: real := 0.5
  const MaxZoom: real := 3.0

  function MinOf(a: real, b: real): real
  {
    if a <= b then a else b
  }

  function MaxOf(a: real, b: real): real
  {
    if a <= b then b else a
  }

  function Abs(a: real): real
  {
    if a < 0.0 then -a else a
  }

  /** The rectangle between the press and release positions
      (app.js:181-184): it spans exactly from one position to the other on
      each axis, so its size is never negative. */
  function DragRect(a: Point, b: Point): (r: Rect)
    ensures r.w >= 0.0 && r.h >= 0.0
    ensures {r.x, r.x + r.w} == {a.x, b.x}
    ensures {r.y, r.y + r.h} == {a.y, b.y}
  {
    Rect(MinOf(a.x, b.x), MinOf(a.y, b.y), Abs(b.x - a.x), Abs(b.y - a.y))
  }

  predicate IsClick(r: Rect)
  {
    r.w < ClickThreshold && r.h < ClickThreshold
  }

  /** Closed bounds on both axes. */
  predicate Inside(p: Point, r: Rect)
  {
    r.x <= p.x <= r.x + r.w && r.y <= p.y <= r.y + r.h
  }

  /** A box is hit when it has a display rectangle containing the point. */
  predicate Hits(b: Box, p: Point, rot: Rotation, s: Surface)
  {
    match NormalizedToDisplayRect(b, rot, s)
    case None => false
    case Some(r) => Inside(p, r)
  }

  /** k is the first box in list order that the point hits, or -1 when
      it hits none. */
  predicate IsFirstHit(boxes: seq<Box>, p: Point, rot: Rotation, s: Surface, k: int)
  {
    if k == -1 then forall i :: 0 <= i < |boxes| ==> !Hits(boxes[i], p, rot, s)
    else 0 <= k < |boxes| && Hits(boxes[k], p, rot, s)
         && forall i :: 0 <= i < k ==> !Hits(boxes[i], p, rot, s)
  }

  /** The hit-test loop of the mouse-up handler (app.js:188-193). */
  method FirstHit(boxes: seq<Box>, p: Point, rot: Rotation, s: Surface) returns (hit: int)
    ensures IsFirstHit(boxes, p, rot, s, hit)
  {
    hit := -1;
    var i := 0;
    while i < |boxes|
      invariant 0 <= i <= |boxes|
      invariant forall j :: 0 <= j < i ==> !Hits(boxes[j], p, rot, s)
    {
      var r := NormalizedToDisplayRect(boxes[i], rot, s);
      if r.Some? && Inside(p, r.value) {
        hit := i;
        return;
      }
      i := i + 1;
    }
  }

  /** `splice(i, 1)` with a non-negative start: the element at i goes,
      the others keep their order; an index past the end removes nothing. */
  function RemoveAt<T>(s: seq<T>, i: nat): (r: seq<T>)
    ensures i < |s| ==> |r| == |s| - 1
    ensures i < |s| ==> forall j :: 0 <= j < i ==> r[j] == s[j]
    ensures i < |s| ==> forall j :: i <= j < |r| ==> r[j] == s[j + 1]
    ensures i < |s| ==> multiset(r) + multiset{s[i]} == multiset(s)
    ensures i >= |s| ==> r == s
  {
    if i < |s| then
      assert s == s[..i] + [s[i]] + s[i + 1..];
      s[..i] + s[i + 1..]
    else s
  }

  /** The wheel handler's zoom (app.js:388-390): one step out (deltaY > 0)
      or in, then clamped. The result is always within the zoom bounds, a
      step out never zooms in and a step in never zooms out, and within
      the bounds the step is the exact factor. */
  function WheelZoom(zoom: real, deltaY: real): (z: real)
    ensures MinZoom <= z <= MaxZoom
    ensures MinZoom <= zoom <= MaxZoom && deltaY > 0.0 ==> z <= zoom
    ensures MinZoom <= zoom <= MaxZoom && deltaY <= 0.0 ==> z >= zoom
    ensures MinZoom <= zoom * WheelFactor(deltaY) <= MaxZoom ==> z == zoom * WheelFactor(deltaY)
  {
    MaxOf(MinZoom, MinOf(MaxZoom, zoom * WheelFactor(deltaY)))
  }

  function WheelFactor(deltaY: real): real
  {
    if deltaY > 0.0 then 0.9 else 1.1
  }

  /** What `drawBoxes` paints for one box: its rectangle and whether it is
      styled as the selected one. */
  datatype DrawnBox = DrawnBox(index: nat, rect: Rect, highlighted: bool)

  /** The boxes `drawBoxes` paints (app.js:60-77), in list order: every box
      once the image is decoded, none before; exactly the box at the
      selected index is highlighted. */
  function DrawnBoxes(boxes: seq<Box>, selected: int, rot: Rotation, s: Surface): (d: seq<DrawnBox>)
    ensures Decoded(s) ==> |d| == |boxes|
    ensures !Decoded(s) ==> d == []
    ensures forall k :: 0 <= k < |d| ==>
              && d[k].index == k
              && NormalizedToDisplayRect(boxes[k], rot, s) == Some(d[k].rect)
              && (d[k].highlighted <==> k == selected)
  {
    if !Decoded(s) then []
    else seq(|boxes|, k requires 0 <= k < |boxes| =>
               DrawnBox(k, NormalizedToDisplayRect(boxes[k], rot, s).value, k == selected))
  }

  /** The indices `drawBoxes` paints in the selected style. */
  function HighlightedIndices(d: seq<DrawnBox>): set<nat>
  {
    set k: nat | k < |d| && d[k].highlighted
  }

  /** At most one box is painted as selected: exactly the selected one when
      the image is decoded and the index lies within the list, and none when
      the selection is -1 or lies past the end of the list (as it can after
      an undo or redo). */
  lemma {:induction false} HighlightedAtMostOne(boxes: seq<Box>, selected: int, rot: Rotation, s: Surface)
    ensures var d := DrawnBoxes(boxes, selected, rot, s);
            HighlightedIndices(d) ==
              if Decoded(s) && 0 <= selected < |boxes| then {selected as nat} else {}
  {
    var d := DrawnBoxes(boxes, selected, rot, s);
    if Decoded(s) && 0 <= selected < |boxes| {
      assert d[selected].highlighted;
      assert HighlightedIndices(d) == {selected as nat};
    } else {
      assert HighlightedIndices(d) == {};
    }
  }

  /** The mutable state of the page script that the editor handlers use. */
  class AnnotationEditor {
    var boxes: seq<Box>
    var selectedIndex: int
    var undoStack: seq<seq<Box>>
    var redoStack: seq<seq<Box>>
    var rotation: Rotation
    var zoom: real
    var panX: real
    var panY: real
    var drawing: bool
    var start: Point
    var isPanning: bool
    var panStartX: real
    var panStartY: real

    /** The invariant every handler keeps: the selection is an index or -1
        (it may lie past the end of the list after an undo or redo, which
        do not reset it), both history stacks together hold at most 100
        snapshots, and the zoom stays within its bounds. */
    ghost predicate Valid()
      reads this
    {
      && selectedIndex >= -1
      && |undoStack| + |redoStack| <= History.Capacity
      && MinZoom <= zoom <= MaxZoom
    }

    twostate predicate EditUnchanged()
      reads this
    {
      && boxes == old(boxes)
      && selectedIndex == old(selectedIndex)
      && undoStack == old(undoStack)
      && redoStack == old(redoStack)
    }

    twostate predicate ViewUnchanged()
      reads this
    {
      && rotation == old(rotation)
      && zoom == old(zoom)
      && panX == old(panX)
      && panY == old(panY)
    }

    twostate predicate GestureUnchanged()
      reads this
    {
      && drawing == old(drawing)
      && start == old(start)
      && isPanning == old(isPanning)
      && panStartX == old(panStartX)
      && panStartY == old(panStartY)
    }

    /** The edit state after `doUndo`: nothing changes on an empty undo
        stack; otherwise the current list goes onto the redo stack and the
        top of the undo stack becomes the current list. The selection is
        left as it was. */
    twostate predicate Undone()
      reads this
    {
      && selectedIndex == old(selectedIndex)
      && (old(undoStack) == [] ==>
            boxes == old(boxes) && undoStack == old(undoStack) && redoStack == old(redoStack))
      && (old(undoStack) != [] ==>
            && boxes == old(undoStack[|undoStack| - 1])
            && undoStack == old(undoStack[..|undoStack| - 1])
            && redoStack == old(redoStack) + [old(boxes)])
    }

    /** The edit state after `doRedo`: the mirror image of `Undone`. */
    twostate predicate Redone()
      reads this
    {
      && selectedIndex == old(selectedIndex)
      && (old(redoStack) == [] ==>
            boxes == old(boxes) && undoStack == old(undoStack) && redoStack == old(redoStack))
      && (old(redoStack) != [] ==>
            && boxes == old(redoStack[|redoStack| - 1])
            && redoStack == old(redoStack[..|redoStack| - 1])
            && undoStack == old(undoStack) + [old(boxes)])
    }

    /** The edit state after a delete: nothing changes without a selection;
        otherwise history is recorded, exactly the selected box is removed
        (nothing when the index is past the end) and the selection is
        cleared. */
    twostate predicate Deleted()
      reads this
    {
      && (old(selectedIndex) < 0 ==>
            boxes == old(boxes) && selectedIndex == old(selectedIndex)
            && undoStack == old(undoStack) && redoStack == old(redoStack))
      && (old(selectedIndex) >= 0 ==>
            && undoStack == History.BoundedPush(old(undoStack), old(boxes))
            && redoStack == []
            && boxes == RemoveAt(old(boxes), old(selectedIndex))
            && selectedIndex == -1)
    }

    /** The script's initial values (app.js:10-23). */
    constructor ()
      ensures Valid()
      ensures boxes == [] && selectedIndex == -1 && undoStack == [] && redoStack == []
      ensures rotation == R0 && zoom == 1.0 && panX == 0.0 && panY == 0.0
      ensures !drawing && !isPanning
    {
      boxes := [];
      selectedIndex := -1;
      undoStack := [];
      redoStack := [];
      rotation := R0;
      zoom := 1.0;
      panX := 0.0;
      panY := 0.0;
      drawing := false;
      start := Point(0.0, 0.0);
      isPanning := false;
      panStartX := 0.0;
      panStartY := 0.0;
    }

    /** `pushUndo`: snapshot the box list onto the bounded undo stack and
        forget the redo stack. */
    method PushUndo()
      requires Valid()
      modifies this
      ensures Valid()
      ensures undoStack == History.BoundedPush(old(undoStack), old(boxes))
      ensures redoStack == []
      ensures boxes == old(boxes) && selectedIndex == old(selectedIndex)
      ensures ViewUnchanged() && GestureUnchanged()
    {
      undoStack := History.BoundedPush(undoStack, boxes);
      redoStack := [];
    }

    /** `doUndo` (app.js:206), as `Undone` describes. */
    method Undo()
      requires Valid()
      modifies this
      ensures Valid()
      ensures |undoStack| + |redoStack| == old(|undoStack| + |redoStack|)
      ensures Undone()
      ensures ViewUnchanged() && GestureUnchanged()
    {
      if |undoStack| == 0 {
        return;
      }
      redoStack := redoStack + [boxes];
      boxes := undoStack[|undoStack| - 1];
      undoStack := undoStack[..|undoStack| - 1];
    }

    /** `doRedo` (app.js:207), as `Redone` describes. */
    method Redo()
      requires Valid()
      modifies this
      ensures Valid()
      ensures |undoStack| + |redoStack| == old(|undoStack| + |redoStack|)
      ensures Redone()
      ensures ViewUnchanged() && GestureUnchanged()
    {
      if |redoStack| == 0 {
        return;
      }
      undoStack := undoStack + [boxes];
      boxes := redoStack[|redoStack| - 1];
      redoStack := redoStack[..|redoStack| - 1];
    }

    /** The delete button and the Delete/Backspace keys (app.js:363-371
        and 378): only with a selection; record history, remove exactly the
        selected box (nothing when the index is past the end) and clear the
        selection. */
    method DeleteSelected()
      requires Valid()
      modifies this
      ensures Valid()
      ensures Deleted()
      ensures ViewUnchanged() && GestureUnchanged()
    {
      if selectedIndex >= 0 {
        PushUndo();
        boxes := RemoveAt(boxes, selectedIndex);
        selectedIndex := -1;
      }
    }

    /** Left-button press (app.js:156-162): start a drag at p when an image
        is shown. */
    method PressDraw(hasImage: bool, button: int, p: Point)
      requires Valid()
      modifies this
      ensures Valid()
      ensures hasImage && button == 0 ==> drawing && start == p
      ensures !(hasImage && button == 0) ==> drawing == old(drawing) && start == old(start)
      ensures EditUnchanged() && ViewUnchanged()
      ensures isPanning == old(isPanning) && panStartX == old(panStartX) && panStartY == old(panStartY)
    {
      if !hasImage {
        return;
      }
      if button != 0 {
        return;
      }
      drawing := true;
      start := p;
    }

    /** Release after a drag (app.js:177-203), with p the release position
        in canvas pixels and classId the class chosen in the page. A small
        drag is a click that selects the first box under p, or none; a
        larger one records history and appends one box. When the image is
        not decoded the source throws at app.js:199 after recording
        history; the state is then as it stood at the throw. */
    method ReleaseDraw(p: Point, s: Surface, classId: int)
      requires Valid()
      requires s.canvasWidth > 0 && s.canvasHeight > 0
      modifies this
      ensures Valid()
      ensures !drawing
      ensures !old(drawing) ==> EditUnchanged()
      ensures old(drawing) && IsClick(DragRect(old(start), p)) ==>
                && boxes == old(boxes) && undoStack == old(undoStack) && redoStack == old(redoStack)
                && IsFirstHit(boxes, p, rotation, s, selectedIndex)
      ensures old(drawing) && !IsClick(DragRect(old(start), p)) ==>
                && undoStack == History.BoundedPush(old(undoStack), old(boxes))
                && redoStack == []
                && match DisplayRectToNormalized(DragRect(old(start), p), rotation, s)
                   case Some(f) => boxes == old(boxes) + [Box(f.x, f.y, f.w, f.h, classId)] && selectedIndex == -1
                   case None => boxes == old(boxes) && selectedIndex == old(selectedIndex)
      ensures ViewUnchanged()
      ensures start == old(start) && isPanning == old(isPanning)
      ensures panStartX == old(panStartX) && panStartY == old(panStartY)
    {
      if !drawing {
        return;
      }
      drawing := false;
      var r := DragRect(start, p);
      if IsClick(r) {
        var hit := FirstHit(boxes, p, rotation, s);
        selectedIndex := hit;
        return;
      }
      PushUndo();
      var f := DisplayRectToNormalized(r, rotation, s);
      if f.None? {
        return;
      }
      boxes := boxes + [Box(f.value.x, f.value.y, f.value.w, f.value.h, classId)];
      selectedIndex := -1;
    }

    /** The wheel handler (app.js:386-393). */
    method Wheel(deltaY: real)
      requires Valid()
      modifies this
      ensures Valid()
      ensures zoom == WheelZoom(old(zoom), deltaY)
      ensures rotation == old(rotation) && panX == old(panX) && panY == old(panY)
      ensures EditUnchanged() && GestureUnchanged()
    {
      zoom := WheelZoom(zoom, deltaY);
    }

    /** Right-button press (app.js:408-415): remember the pointer's offset
        from the current pan. */
    method PressPan(button: int, clientX: real, clientY: real)
      requires Valid()
      modifies this
      ensures Valid()
      ensures button == 2 ==> isPanning && panStartX == clientX - panX && panStartY == clientY - panY
      ensures button != 2 ==> GestureUnchanged()
      ensures drawing == old(drawing) && start == old(start)
      ensures EditUnchanged() && ViewUnchanged()
    {
      if button == 2 {
        isPanning := true;
        panStartX := clientX - panX;
        panStartY := clientY - panY;
      }
    }

    /** Pointer move while panning (app.js:416-425). */
    method MovePan(clientX: real, clientY: real)
      requires Valid()
      modifies this
      ensures Valid()
      ensures isPanning ==> panX == clientX - panStartX && panY == clientY - panStartY
      ensures !isPanning ==> panX == old(panX) && panY == old(panY)
      ensures rotation == old(rotation) && zoom == old(zoom)
      ensures EditUnchanged() && GestureUnchanged()
    {
      if isPanning {
        panX := clientX - panStartX;
        panY := clientY - panStartY;
      }
    }

    /** Any release ends a pan (app.js:426-428). */
    method ReleasePan()
      requires Valid()
      modifies this
      ensures Valid()
      ensures !isPanning
      ensures drawing == old(drawing) && start == old(start)
      ensures panStartX == old(panStartX) && panStartY == old(panStartY)
      ensures EditUnchanged() && ViewUnchanged()
    {
      isPanning := false;
    }

    /** The synchronous part of `loadImage` (app.js:225-237): with images to
        show, the box list and both stacks are emptied and the view is
        reset; the selection is only reset when the annotations arrive. */
    method LoadImage(hasImages: bool)
      requires Valid()
      modifies this
      ensures Valid()
      ensures !hasImages ==> EditUnchanged() && ViewUnchanged()
      ensures hasImages ==>
                && boxes == [] && undoStack == [] && redoStack == []
                && rotation == R0 && zoom == 1.0 && panX == 0.0 && panY == 0.0
      ensures selectedIndex == old(selectedIndex)
      ensures GestureUnchanged()
    {
      if !hasImages {
        return;
      }
      boxes := [];
      undoStack := [];
      redoStack := [];
      rotation := R0;
      zoom := 1.0;
      panX := 0.0;
      panY := 0.0;
    }

    /** The end of `loadImage` (app.js:242-249): `loaded` is the
        response's annotation list (empty when the response carries none),
        or None when the request or its decoding threw. The list is
        replaced by it, and the selection is cleared either way. */
    method AnnotationsLoaded(loaded: Option<seq<Box>>)
      requires Valid()
      modifies this
      ensures Valid()
      ensures loaded.Some? ==> boxes == loaded.value
      ensures loaded.None? ==> boxes == old(boxes)
      ensures selectedIndex == -1
      ensures undoStack == old(undoStack) && redoStack == old(redoStack)
      ensures ViewUnchanged() && GestureUnchanged()
    {
      if loaded.Some? {
        boxes := loaded.value;
      }
      selectedIndex := -1;
    }

    /** After the server rotated the image file (app.js:332-333 and
        348-349): rotation and zoom are reset; the pan is kept. */
    method RotatedOnServer()
      requires Valid()
      modifies this
      ensures Valid()
      ensures rotation == R0 && zoom == 1.0
      ensures panX == old(panX) && panY == old(panY)
      ensures EditUnchanged() && GestureUnchanged()
    {
      rotation := R0;
      zoom := 1.0;
    }

    /** The keydown handler as written (app.js:372-383): the command is
        `KeyCommand`'s, so Ctrl+Shift+Z undoes; an undo, redo or delete
        changes the edit state exactly as `Undone`, `Redone` or `Deleted`
        say, and every other key leaves it alone. Moving to another image
        is returned to the caller, which loads it. */
    method KeyDown(k: KeyPress) returns (cmd: Command)
      requires Valid()
      modifies this
      ensures Valid()
      ensures cmd == KeyCommand(k)
      ensures cmd == UndoEdit ==> Undone()
      ensures cmd == RedoEdit ==> Redone()
      ensures cmd == DeleteBox ==> Deleted()
      ensures cmd != UndoEdit && cmd != RedoEdit && cmd != DeleteBox ==> EditUnchanged()
      ensures ViewUnchanged() && GestureUnchanged()
    {
      cmd := KeyCommand(k);
      match cmd
      case UndoEdit => Undo();
      case RedoEdit => Redo();
      case DeleteBox => DeleteSelected();
      case _ =>
    }
  }

  /** Undo followed by redo puts the box list and both stacks back. */
  method UndoThenRedo(e: AnnotationEditor)
    requires e.Valid() && e.undoStack != []
    modifies e
    ensures e.Valid()
    ensures e.boxes == old(e.boxes)
    ensures e.undoStack == old(e.undoStack) && e.redoStack == old(e.redoStack)
  {
    e.Undo();
    e.Redo();
  }

  /** Deleting the selected box and undoing gives back the list as it was. */
  method DeleteThenUndo(e: AnnotationEditor)
    requires e.Valid() && e.selectedIndex >= 0
    modifies e
    ensures e.Valid()
    ensures e.boxes == old(e.boxes)
    ensures e.selectedIndex == -1
  {
    e.DeleteSelected();
    e.Undo();
  }

  /** During a right-button drag the pan moves by exactly the pointer's
      displacement since the press. */
  method PanDrag(e: AnnotationEditor, x0: real, y0: real, x1: real, y1: real)
    requires e.Valid()
    modifies e
    ensures e.Valid()
    ensures e.panX == old(e.panX) + (x1 - x0) && e.panY == old(e.panY) + (y1 - y0)
  {
    e.PressPan(2, x0, y0);
    e.MovePan(x1, y1);
  }

  /** What a key press asks for (app.js:372-383). */
  datatype Command = UndoEdit | RedoEdit | DeleteBox | PreviousImage | NextImage | NoCommand

  datatype KeyPress = KeyPress(key: string, ctrl: bool, meta: bool, shift: bool)

  predicate Chord(k: KeyPress)
  {
    k.ctrl || k.meta
  }

  /** The keydown handler as written: the undo test comes first and also
      matches Ctrl+Shift+Z, so the redo test's Shift+Z alternative is never
      reached. */
  function KeyCommand(k: KeyPress): Command
  {
    var key := Strings.Lower(k.key);
    if Chord(k) && key == "z" then UndoEdit
    else if Chord(k) && (key == "y" || (k.shift && key == "z")) then RedoEdit
    else if k.key == "Delete" || k.key == "Backspace" then DeleteBox
    else if k.key == "ArrowLeft" || key == "a" then PreviousImage
    else if k.key == "ArrowRight" || key == "d" then NextImage
    else NoCommand
  }

  /** Ctrl+Shift+Z, which the redo test names, undoes. */
  lemma ShiftZUndoes()
    ensures var k := KeyPress("Z", true, false, true);
            var key := Strings.Lower(k.key);
            && Chord(k) && k.shift && key == "z"
            && KeyCommand(k) == UndoEdit
  {
    assert Strings.Lower("Z") == "z";
  }

  /** The handler with the redo test first, as the Shift+Z alternative
      intends. */
  function KeyCommandCorrected(k: KeyPress): (c: Command)
  {
    var key := Strings.Lower(k.key);
    if Chord(k) && (key == "y" || (k.shift && key == "z")) then RedoEdit
    else if Chord(k) && key == "z" then UndoEdit
    else KeyCommand(k)
  }

  /** With the correction, Ctrl+Z undoes and Ctrl+Shift+Z redoes, and every
      other key press means what it meant before. */
  lemma {:induction false} KeyCommandCorrectedMeaning(k: KeyPress)
    ensures Chord(k) && Strings.Lower(k.key) == "z" ==>
              KeyCommandCorrected(k) == (if k.shift then RedoEdit else UndoEdit)
    ensures KeyCommandCorrected(k) != KeyCommand(k) <==>
              (Chord(k) && k.shift && Strings.Lower(k.key) == "z")
  {
  }
}
