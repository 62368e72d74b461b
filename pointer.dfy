/** MouseManager: a two-state pointer machine. Space enters drag mode and V
    leaves it; in drag mode the primary button pans the camera, in normal
    mode a press on an in-bounds cell asks the ledger to place the selected
    item. Pointer positions and the cell under the pointer are integers; the
    camera's float translation is recorded as the pointer delta it follows. */
module Pointer {
  import opened Ledger

  datatype Pos = Pos(x: int, y: int)

  /** One frame of input: the mode keys, the pointer position, the grid cell
      under the pointer, and the primary button's down / held / up state. */
  datatype MouseFrame = MouseFrame(spaceDown: bool, vDown: bool, mouse: Pos, cell: Pos,
                                   buttonDown: bool, buttonHeld: bool, buttonUp: bool)

  datatype MouseState = MouseState(dragMode: bool, isDragging: bool, lastMousePosition: Pos)

  /** What a frame does outside the machine: nothing, pan the camera against
      the pointer delta (dx, dy), or forward a placement to TryPlaceItem. */
  datatype Action = NoAction | Pan(dx: int, dy: int) | PlaceAt(x: int, y: int, item: int)

  /** Space sets drag mode, then V clears it, so V wins when both are pressed. */
  function DragModeAfter(dragMode: bool, spaceDown: bool, vDown: bool): (r: bool)
    ensures vDown ==> !r
    ensures spaceDown && !vDown ==> r
    ensures !spaceDown && !vDown ==> r == dragMode
  {
    var afterSpace := if spaceDown then true else dragMode;
    if vDown then false else afterSpace
  }

  /** delta.magnitude > threshold on integer deltas. */
  predicate Exceeds(dx: int, dy: int, threshold: int) {
    threshold < 0 || dx * dx + dy * dy > threshold * threshold
  }

  /** One Update frame of MouseManager. `width` and `height` are the grid's
      size and `selected` the ledger's selected item. */
  function Step(m: MouseState, f: MouseFrame, threshold: int, width: int, height: int, selected: int): (r: (MouseState, Action))
    ensures r.0.dragMode == DragModeAfter(m.dragMode, f.spaceDown, f.vDown)
    ensures r.1.PlaceAt? <==> !r.0.dragMode && f.buttonDown && 0 <= f.cell.x < width && 0 <= f.cell.y < height && selected >= 0
    ensures r.1.PlaceAt? ==> r.1 == PlaceAt(f.cell.x, f.cell.y, selected)
    ensures !r.0.dragMode ==> r.0.isDragging == m.isDragging && r.0.lastMousePosition == m.lastMousePosition && !r.1.Pan?
    ensures r.1.Pan? ==> r.0.dragMode && f.buttonHeld && Exceeds(r.1.dx, r.1.dy, threshold)
    ensures r.0.dragMode && f.buttonUp ==> !r.0.isDragging
    ensures r.0.dragMode && f.buttonDown && !f.buttonUp ==> r.0.isDragging
    ensures r.0.dragMode && f.buttonHeld && (f.buttonDown || m.isDragging) ==> r.0.lastMousePosition == f.mouse
    ensures var last := if f.buttonDown then f.mouse else m.lastMousePosition;
      r.1.Pan? <==> r.0.dragMode && f.buttonHeld && (f.buttonDown || m.isDragging) &&
                    Exceeds(f.mouse.x - last.x, f.mouse.y - last.y, threshold)
    ensures var last := if f.buttonDown then f.mouse else m.lastMousePosition;
      r.1.Pan? ==> r.1 == Pan(f.mouse.x - last.x, f.mouse.y - last.y)
    ensures r.0.dragMode && !f.buttonDown && !f.buttonUp ==> r.0.isDragging == m.isDragging
    ensures r.0.dragMode && !(f.buttonHeld && (f.buttonDown || m.isDragging)) ==>
      r.0.lastMousePosition == (if f.buttonDown then f.mouse else m.lastMousePosition)
  {
    if DragModeAfter(m.dragMode, f.spaceDown, f.vDown) then
      var dragging := if f.buttonDown then true else m.isDragging;
      var last := if f.buttonDown then f.mouse else m.lastMousePosition;
      var panning := f.buttonHeld && dragging;
      var dx, dy := f.mouse.x - last.x, f.mouse.y - last.y;
      var action := if panning && Exceeds(dx, dy, threshold) then Pan(dx, dy) else NoAction;
      (MouseState(true, if f.buttonUp then false else dragging, if panning then f.mouse else last), action)
    else
      (m.(dragMode := false),
       if f.buttonDown && 0 <= f.cell.x < width && 0 <= f.cell.y < height && selected >= 0
       then PlaceAt(f.cell.x, f.cell.y, selected) else NoAction)
  }

  /** Leaving drag mode with V does not end a drag gesture: after V and then
      Space, a button still held pans from the old recorded position without
      a new press. */
  lemma StaleDragResumes(m: MouseState, f1: MouseFrame, f2: MouseFrame, threshold: int, width: int, height: int, selected: int)
    requires m.dragMode && m.isDragging
    requires f1.vDown && !f1.buttonDown
    requires f2.spaceDown && !f2.vDown && !f2.buttonDown && f2.buttonHeld
    requires Exceeds(f2.mouse.x - m.lastMousePosition.x, f2.mouse.y - m.lastMousePosition.y, threshold)
    ensures var (m1, a1) := Step(m, f1, threshold, width, height, selected);
      !m1.dragMode && m1.isDragging && a1 == NoAction &&
      Step(m1, f2, threshold, width, height, selected).1 ==
        Pan(f2.mouse.x - m.lastMousePosition.x, f2.mouse.y - m.lastMousePosition.y)
  {
  }

  /** A drag continues across frames: once pressed in drag mode, every later
      frame with the button held and no press or release pans by the pointer's
      movement since the previous frame, when that movement exceeds the
      threshold. */
  lemma HeldDragPansEachFrame(m: MouseState, f1: MouseFrame, f2: MouseFrame, threshold: int, width: int, height: int, selected: int)
    requires m.dragMode && !f1.vDown && f1.buttonDown && !f1.buttonUp
    requires !f2.vDown && !f2.buttonDown && !f2.buttonUp && f2.buttonHeld
    requires Exceeds(f2.mouse.x - f1.mouse.x, f2.mouse.y - f1.mouse.y, threshold)
    ensures var (m1, _) := Step(m, f1, threshold, width, height, selected);
      var (m2, a2) := Step(m1, f2, threshold, width, height, selected);
      m1.isDragging && m2.isDragging && m2.lastMousePosition == f2.mouse &&
      a2 == Pan(f2.mouse.x - f1.mouse.x, f2.mouse.y - f1.mouse.y)
  {
  }

  /** In drag mode a frame does not depend on the grid or the selection, and
      the mode keys act only through the mode they leave. */
  lemma DragStepIgnoresGrid(m: MouseState, f: MouseFrame, threshold: int, width: int, height: int, selected: int)
    requires DragModeAfter(m.dragMode, f.spaceDown, f.vDown)
    ensures Step(m, f, threshold, width, height, selected) ==
            Step(m.(dragMode := true), f.(spaceDown := false, vDown := false), threshold, 0, 0, -1)
  {
  }

  class MouseManager {
    const dragThreshold: int
    /** The ledger; its gridManager is the grid whose bounds are checked. */
    const game: GameManager
    var dragMode: bool
    var isDragging: bool
    var lastMousePosition: Pos

    ghost function State(): MouseState
      reads this
    {
      MouseState(dragMode, isDragging, lastMousePosition)
    }

    constructor (ledger: GameManager, threshold: int)
      ensures game == ledger && dragThreshold == threshold
      ensures !dragMode && !isDragging && lastMousePosition == Pos(0, 0)
    {
      game, dragThreshold := ledger, threshold;
      dragMode, isDragging, lastMousePosition := false, false, Pos(0, 0);
    }

    /** One frame; the returned action records what was done outside the
        machine. */
    method Update(f: MouseFrame) returns (action: Action)
      requires game.Valid()
      modifies this, game`currentMoney, game.gridManager`nextId, game.gridManager.occupiedCells, game.gridManager.grid
      ensures game.Valid()
      ensures (State(), action) == Step(old(State()), f, dragThreshold,
                game.gridManager.gridWidth, game.gridManager.gridHeight, game.selectedItemIndex)
      ensures action.PlaceAt? ==>
        Purchase(game.currentMoney, game.gridManager.Model(), game.gridManager.nextId) ==
        TryPlace(game.itemCosts, game.gridManager.itemPrefabs, old(game.currentMoney), old(game.gridManager.Model()),
                 action.x, action.y, action.item, old(game.gridManager.nextId))
      ensures !action.PlaceAt? ==>
        game.currentMoney == old(game.currentMoney) && game.gridManager.nextId == old(game.gridManager.nextId) &&
        game.gridManager.Model() == old(game.gridManager.Model())
    {
      if f.spaceDown {
        dragMode := true;
      }
      if f.vDown {
        dragMode := false;
      }
      if dragMode {
        action := DragFrame(f);
        DragStepIgnoresGrid(old(State()), f, dragThreshold,
          game.gridManager.gridWidth, game.gridManager.gridHeight, game.selectedItemIndex);
      } else {
        action := NormalFrame(f);
      }
    }

    /** The drag-mode branch of a frame: the button starts, continues and
        ends a camera pan. */
    method DragFrame(f: MouseFrame) returns (action: Action)
      requires dragMode
      modifies this`isDragging, this`lastMousePosition
      ensures (State(), action) == Step(old(State()), f.(spaceDown := false, vDown := false), dragThreshold, 0, 0, -1)
    {
      action := NoAction;
      if f.buttonDown {
        isDragging := true;
        lastMousePosition := f.mouse;
      }
      if f.buttonHeld && isDragging {
        var dx, dy := f.mouse.x - lastMousePosition.x, f.mouse.y - lastMousePosition.y;
        if Exceeds(dx, dy, dragThreshold) {
          action := Pan(dx, dy);
        }
        lastMousePosition := f.mouse;
      }
      if f.buttonUp {
        isDragging := false;
      }
    }

    /** The normal-mode branch of a frame: a press on an in-bounds cell with
        an item selected goes to TryPlaceItem. */
    method NormalFrame(f: MouseFrame) returns (action: Action)
      requires !dragMode && game.Valid()
      modifies game`currentMoney, game.gridManager`nextId, game.gridManager.occupiedCells, game.gridManager.grid
      ensures game.Valid()
      ensures (State(), action) == Step(old(State()), f.(spaceDown := false, vDown := false), dragThreshold,
                game.gridManager.gridWidth, game.gridManager.gridHeight, game.selectedItemIndex)
      ensures game.selectedItemIndex == old(game.selectedItemIndex)
      ensures action.PlaceAt? ==>
        Purchase(game.currentMoney, game.gridManager.Model(), game.gridManager.nextId) ==
        TryPlace(game.itemCosts, game.gridManager.itemPrefabs, old(game.currentMoney), old(game.gridManager.Model()),
                 action.x, action.y, action.item, old(game.gridManager.nextId))
      ensures !action.PlaceAt? ==>
        game.currentMoney == old(game.currentMoney) && game.gridManager.nextId == old(game.gridManager.nextId) &&
        game.gridManager.Model() == old(game.gridManager.Model())
    {
      var x, y := f.cell.x, f.cell.y;
      action := NoAction;
      if f.buttonDown {
        if x >= 0 && x < game.gridManager.gridWidth && y >= 0 && y < game.gridManager.gridHeight {
          var selected := game.selectedItemIndex;
          if selected >= 0 {
            game.TryPlaceItem(x, y, selected);
            action := PlaceAt(x, y, selected);
          }
        }
      }
    }
  }
}
