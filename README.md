# Grid placement game: occupancy, ledger, store selection and pointer modes

A Dafny model of the gameplay core of a grid-based store-placement game.
The player picks one of four stores with the number keys. The store is
placed on a fixed-size grid with the mouse or the keyboard cursor, and its
cost is paid from a single balance. The core is four engine scripts:

- `GridManager` is the occupancy authority. It keeps a `gridWidth × gridHeight`
  array of occupancy flags and a parallel array of placed-item references. It
  offers bounds-checked place, remove, query and clear, and moves a keyboard
  cursor clamped to the grid. Out-of-bounds cells count as occupied.
- `GameManager` is the ledger. It holds a 32-bit balance, a cost table and the
  selected item. `TryPlaceItem` checks the item index, the balance and the
  target cell, then places the item and debits its cost.
- `PreviewManager` is the store-selection machine. Keys 1–4 select a store.
  An unaffordable store is refused. A second press of the current store within
  0.3 time units cancels the selection. It keeps the ledger's selected item in
  step with its own preview index.
- `MouseManager` is a two-state pointer machine. In drag mode the button pans
  the camera. In normal mode a click on an in-bounds cell, with an item
  selected, goes to `TryPlaceItem`.

Each script with state is a Dafny class with the same fields, updated in place.
Each class method is proved equal to a pure function of the old state: the
board value (`Occupancy`), `Ledger.TryPlace`, the `Selection` functions, and
`Pointer.Step`. The lemmas beside those functions state what the game promises.

Modules: `Occupancy` (board value), `Grid` (`GridManager`), `Ledger`
(`GameManager`), `GridInput` (the keyboard frame of `GridManager.Update`, which
needs both the grid and the ledger), `Selection` (selection values and the
store label), `Preview` (`PreviewManager`), `Pointer` (`MouseManager`).

Modelling choices:

- Placed items are ids taken from a counter (`nextId`). Prefab slots are
  "assigned" flags.
- Engine singletons become explicit references. `PreviewManager` and the
  keyboard frame take a nullable ledger, because the code checks
  `GameManager.Instance` for null there. `MouseManager` takes a non-null one.
  The grid that `MouseManager` and the keyboard frame check against is the
  ledger's `gridManager`, so the model assumes that `GridManager.Instance` and
  `GameManager.gridManager` are the same object.
- C# `int` is modelled as `int32`. `+=` and `-=` on the balance wrap modulo 2^32
  (`Ledger.Wrap32`).
- `Time.time` is a `real` parameter.
- Pointer positions and the cell under the pointer are integers.
  `delta.magnitude > dragThreshold` becomes `dx² + dy² > t²` with an integer
  threshold `t`.

Behaviour of the code a reader might not expect, which the model keeps:

- A failed operation does not always leave the state unchanged. When the
  index, balance and cell checks pass but the prefab slot is missing or
  unassigned, `PlaceItem` refuses the item and `TryPlaceItem` still debits
  the cost (`Ledger.ChargedWithoutItem`).
- The pointer machine has two states, drag and normal; deleting is the
  Delete or Backspace key at the keyboard cursor. The HUD buttons at
  `Assets/Scripts/HUD/HudManager.cs:54-56` call `MouseManager.SetMode` with
  `MouseManager.MouseMode` values, and `Assets/Scripts/Player/MouseManager.cs`
  defines neither, so the model has no mode buttons.
- Leaving drag mode does not cancel a drag gesture: `isDragging` survives V
  (`Pointer.StaleDragResumes`).
- Every number-key press records its time, including a refused one
  (`Selection.RefusedPressOnlyStamps`).

## Model

| member | source | states |
|---|---|---|
| Occupancy.Empty | Assets/Scripts/GridManager.cs:36-40 | the started grid is consistent and every cell is free with a null reference |
| Occupancy.IsOccupied | Assets/Scripts/GridManager.cs:105-112 | a cell reads as free exactly when it is in bounds and its flag is clear; every out-of-bounds cell reads as occupied |
| Occupancy.ItemAt | Assets/Scripts/GridManager.cs:161-166 | null outside the grid; on a consistent board, non-null exactly at in-bounds occupied cells |
| Occupancy.PlaceCheck | Assets/Scripts/GridManager.cs:114-133 | placement succeeds exactly for an in-bounds free cell and an in-range index with an assigned prefab; out-of-bounds and occupied refusals are told apart |
| Occupancy.Place | Assets/Scripts/GridManager.cs:114-140 | a refused placement changes nothing; a successful one occupies the cell with the new item; no other cell changes |
| Occupancy.Remove | Assets/Scripts/GridManager.cs:142-158 | out of bounds or on a free cell nothing changes; otherwise the cell is free with a null reference; no other cell changes |
| Occupancy.PlacePreservesValid | Assets/Scripts/GridManager.cs:135-137 | placing keeps "occupied ⇔ reference non-null" on every cell and keeps every id below the advanced counter |
| Occupancy.RemovePreservesValid | Assets/Scripts/GridManager.cs:150-156 | removing keeps "occupied ⇔ reference non-null" on every cell |
| Occupancy.PlaceRemoveRoundTrip | Assets/Scripts/GridManager.cs:114-158 | removing a just-placed item gives back exactly the board before the placement |
| Occupancy.PlaceTwiceRefused | Assets/Scripts/GridManager.cs:123-127 | after a successful placement, a second placement at that cell is refused as occupied |
| Occupancy.RemoveThenPlaceSucceeds | Assets/Scripts/GridManager.cs:142-158 | after a removal at an in-bounds cell, placing an item with an assigned prefab there succeeds |
| Occupancy.NoneOccupiedIsEmpty | Assets/Scripts/GridManager.cs:169-178 | a consistent board with no occupied cell is the empty board, so clearing every flag also clears every reference |
| Grid.Clamp | Assets/Scripts/GridManager.cs:74-77 | a value below min gives min; with min ≤ max, a value above max gives max and a value inside is kept |
| Grid.MoveCursor | Assets/Scripts/GridManager.cs:74-77 | on a non-empty grid a cursor inside stays inside. Up alone moves it one row up, Down alone one row down, Left alone one column left and Right alone one column right, except at the grid's edge where it stays. Without arrow keys on an axis it does not move on that axis |
| Grid.GridManager.constructor | Assets/Scripts/GridManager.cs:36-40 | both arrays are fresh and empty, and the cursor is at (0, 0) |
| Grid.GridManager.IsCellOccupied | Assets/Scripts/GridManager.cs:105-112 | agrees with the fail-closed occupancy of the board the arrays hold |
| Grid.GridManager.GetItemAt | Assets/Scripts/GridManager.cs:161-166 | agrees with the board; non-null exactly on occupied in-bounds cells |
| Grid.GridManager.PlaceItem | Assets/Scripts/GridManager.cs:114-140 | the arrays afterwards hold `Place` of the arrays before; the id counter advances exactly on success; the invariant is kept |
| Grid.GridManager.RemoveItem | Assets/Scripts/GridManager.cs:142-158 | the arrays afterwards hold `Remove` of the arrays before; the invariant is kept |
| Grid.GridManager.ClearGrid | Assets/Scripts/GridManager.cs:169-178 | the nested loops leave every in-bounds cell free with a null reference |
| Grid.GridManager.MoveCursorKeys | Assets/Scripts/GridManager.cs:74-77 | the cursor afterwards is `MoveCursor` of the cursor before and stays inside a non-empty grid |
| GridInput.Update | Assets/Scripts/GridManager.cs:71-103 | arrow keys move the cursor. Space with a ledger and a selection runs `TryPlace` at the new cursor. Delete/Backspace then removes at the cursor. Without Space placing, the balance and id counter do not change. The selection never changes. |
| Ledger.Wrap32 | Assets/Scripts/GameManager.cs:59 | the result is in the int32 range, equals the exact value when it fits, and differs from it by a multiple of 2^32 |
| Ledger.SelectionFor | Assets/Scripts/GameManager.cs:63-66 | the stored selection is in [-1, itemCosts.Length); an in-range index is kept, anything else becomes -1 |
| Ledger.PurchaseGate | Assets/Scripts/GameManager.cs:50-56 | a purchase is charged exactly when the index is in range, the balance covers the cost and the cell is in bounds and free |
| Ledger.TryPlace | Assets/Scripts/GameManager.cs:50-61 | a purchase keeps the grid's dimensions (its effects are stated by the lemmas below) |
| Ledger.RejectionChangesNothing | Assets/Scripts/GameManager.cs:52-56 | a bad index, a short balance, or an occupied or out-of-bounds cell leaves balance, board and id counter unchanged |
| Ledger.ChargeIsExact | Assets/Scripts/GameManager.cs:58-59 | a charged purchase lowers the balance by exactly the cost, and the balance ends ≥ 0 |
| Ledger.ChargedPurchasePlaces | Assets/Scripts/GameManager.cs:56-59 | a charged purchase with an assigned prefab occupies the cell with the new item, advances the id counter, and leaves every other cell's flag and reference as they were |
| Ledger.ChargedWithoutItem | Assets/Scripts/GameManager.cs:58-59 | with a missing or unassigned prefab the cost is still debited while the board does not change |
| Ledger.PurchasePreservesValid | Assets/Scripts/GameManager.cs:50-61 | a purchase keeps the board consistent and the id counter fresh |
| Ledger.CreditThenChargeRestores | Assets/Scripts/GameManager.cs:68-71 | `AddMoney(c)` followed by a charged purchase costing c restores the original balance, wrap-around included |
| Ledger.GameManager.constructor | Assets/Scripts/GameManager.cs:41-48 | the balance starts at `startingMoney` and nothing is selected |
| Ledger.GameManager.GetCurrentMoney | Assets/Scripts/GameManager.cs:79-82 | returns the balance and changes nothing |
| Ledger.GameManager.TryPlaceItem | Assets/Scripts/GameManager.cs:50-61 | balance, arrays and id counter afterwards are `TryPlace` of their values before; the selection is unchanged |
| Ledger.GameManager.SetSelectedItem | Assets/Scripts/GameManager.cs:63-66 | the selection becomes `SelectionFor(itemCosts.Length, index)` |
| Ledger.GameManager.AddMoney | Assets/Scripts/GameManager.cs:68-71 | the balance grows by exactly the amount, modulo 2^32 |
| Selection.KeyIndex | Assets/Scripts/PreviewManager.cs:70-74 | -1 exactly when no number key is pressed; otherwise the first pressed key of 1–4, as index 0–3 |
| Selection.SetSelected | Assets/Scripts/PreviewManager.cs:135 | the ledger, when present, gets `SelectionFor` of the index and keeps its balance |
| Selection.SelectCheck | Assets/Scripts/PreviewManager.cs:111-132 | a store is selected exactly when its index is in range, its prefab assigned and it is affordable; with no ledger every store is affordable |
| Selection.SelectStore | Assets/Scripts/PreviewManager.cs:111-142 | a refused selection changes nothing; a successful one sets the preview index and shows the preview; the ledger selects the store; the press record is not touched |
| Selection.HidePreview | Assets/Scripts/PreviewManager.cs:252-261 | no current store and no preview; ledger and press record unchanged |
| Selection.CancelSelection | Assets/Scripts/PreviewManager.cs:144-151 | does nothing with no current store; otherwise clears the ledger's selection and hides the preview |
| Selection.PressStore | Assets/Scripts/PreviewManager.cs:76-91 | every press records its time and index. A press of the current store within the threshold cancels: no preview, and the ledger's selection is cleared. Any other press of a store that passes the index, prefab and balance checks shows the preview and sets both the preview index and the ledger's selection to that store. A refused press changes only the recorded time and index |
| Selection.HandleStoreSelection | Assets/Scripts/PreviewManager.cs:68-92 | a frame without a number key changes nothing; otherwise the first pressed key of 1–4 acts as `PressStore` of that store, so it is stamped and goes through the double-tap test or the store checks |
| Selection.HandleCancelInput | Assets/Scripts/PreviewManager.cs:94-100 | without V or Space nothing changes; with either, a selected store is cancelled: no preview, and the ledger's selection is cleared. With nothing selected nothing changes, and the recorded press time and index never change |
| Selection.SelectionFrameKeepsInvariants | Assets/Scripts/PreviewManager.cs:68-100 | number-key and cancel frames keep the preview index in [-1, 4), a preview exactly when a store is selected, the ledger's selection in step, and the ledger's balance and cost-table size unchanged |
| Selection.CancelIdempotent | Assets/Scripts/PreviewManager.cs:144-151 | cancelling twice equals cancelling once |
| Selection.DoubleTapCancels | Assets/Scripts/PreviewManager.cs:78-83 | pressing the current store within the threshold clears the preview and the ledger's selection |
| Selection.RefusedPressOnlyStamps | Assets/Scripts/PreviewManager.cs:84-90 | a refused press outside a double tap changes only the recorded press time and index |
| Selection.SecondPressToggles | Assets/Scripts/PreviewManager.cs:76-91 | after a successful press, pressing the same store again within the threshold cancels, and at or after it selects it again |
| Selection.SelectKeepsLedgerInStep | Assets/Scripts/PreviewManager.cs:134-135 | a successful selection sets the preview index and the ledger's selection to the same store, and leaves the balance unchanged |
| Selection.NatToString | Assets/Scripts/PreviewManager.cs:226 | the cost is rendered as a non-empty string of decimal digits without a leading zero |
| Selection.NatToStringRoundTrip | Assets/Scripts/PreviewManager.cs:226 | the rendered cost reads back as the cost |
| Selection.StoreLabel | Assets/Scripts/PreviewManager.cs:220-233 | the label is the prompt "Selecione uma loja (1-4)" exactly when the index is not a store |
| Selection.LabelShowsNameAndCost | Assets/Scripts/PreviewManager.cs:224-227 | a store's label is its name, then " - Custo: $", then the digits of its cost |
| Preview.PreviewManager.constructor | Assets/Scripts/PreviewManager.cs:40-58 | no store selected, no preview, no press recorded, the prompt shown |
| Preview.PreviewManager.UpdateStoreUI | Assets/Scripts/PreviewManager.cs:220-233 | when the text element exists, it shows `StoreLabel` of the current index |
| Preview.PreviewManager.SelectStore | Assets/Scripts/PreviewManager.cs:111-142 | the state of this object and the ledger afterwards is `Selection.SelectStore` of the state before; the label stays current |
| Preview.PreviewManager.HidePreview | Assets/Scripts/PreviewManager.cs:252-261 | the state afterwards is `Selection.HidePreview` of the state before |
| Preview.PreviewManager.CancelSelection | Assets/Scripts/PreviewManager.cs:144-151 | the state afterwards is `Selection.CancelSelection` of the state before |
| Preview.PreviewManager.HandleStoreSelection | Assets/Scripts/PreviewManager.cs:68-92 | the state afterwards is `Selection.HandleStoreSelection` of the state before |
| Preview.PreviewManager.HandleCancelInput | Assets/Scripts/PreviewManager.cs:94-100 | the state afterwards is `Selection.HandleCancelInput` of the state before |
| Pointer.DragModeAfter | Assets/Scripts/Player/MouseManager.cs:15-29 | V clears drag mode even with Space in the same frame; Space alone sets it; neither keeps it |
| Pointer.Step | Assets/Scripts/Player/MouseManager.cs:13-86 | placement is forwarded exactly in normal mode on a button press over an in-bounds cell with an item selected. In normal mode `isDragging` and the recorded position stay and nothing pans. In drag mode a held button, while dragging or just pressed, pans exactly when the pointer's delta from the recorded position exceeds the threshold, and the pan is that delta. In drag mode, button-up clears `isDragging`, button-down sets it, and a frame with neither keeps it. A held drag records the pointer; otherwise the recorded position is kept, or set to the pointer on a press. |
| Pointer.HeldDragPansEachFrame | Assets/Scripts/Player/MouseManager.cs:41-64 | after a press in drag mode, a later frame with the button only held keeps dragging, records the pointer and pans by its movement since the press when that exceeds the threshold |
| Pointer.DragStepIgnoresGrid | Assets/Scripts/Player/MouseManager.cs:38-65 | a drag-mode frame is the same whatever the grid size and the selected item, and the mode keys matter only through the mode they leave |
| Pointer.StaleDragResumes | Assets/Scripts/Player/MouseManager.cs:23-29 | after V, `isDragging` survives. After Space, a still-held button pans from the old recorded position without a new press. |
| Pointer.MouseManager.constructor | Assets/Scripts/Player/MouseManager.cs:9-11 | normal mode, not dragging, recorded position at the origin |
| Pointer.MouseManager.Update | Assets/Scripts/Player/MouseManager.cs:13-86 | the new state and action are `Step` of the old state. A forwarded placement changes balance and grid as `TryPlace`. Any other frame leaves balance, grid and id counter unchanged. |
| Pointer.MouseManager.DragFrame | Assets/Scripts/Player/MouseManager.cs:38-65 | the drag branch acts as `Step` in drag mode |
| Pointer.MouseManager.NormalFrame | Assets/Scripts/Player/MouseManager.cs:66-85 | the normal branch acts as `Step` in normal mode and forwards to `TryPlaceItem` |

## Left out

- The coin and floating-text animation `ShowMoneyGainEffect` and the money text in `UpdateMoneyUI` are not modelled: they are a coroutine with float interpolation of position and alpha.
- Instantiating and destroying engine objects is not modelled. This covers placed items, the grid cursor and the cell outlines in `GridManager.Start`, and the ghost preview in `CreatePreview`/`ApplyGhostEffect`. Placed items are ids, and the preview is the flag `previewShown`.
- `UpdatePreviewPosition` is not modelled: it is a screen-to-world float conversion with a colour lerp.
- `ShowCostWarning`/`HideCostWarning` are not modelled: they are a cosmetic timed message scheduled by the engine.
- Camera movement is recorded only as the pointer delta of a `Pan` action. `delta * dragSpeed`, `ScreenToWorldPoint` and `FloorToInt` are floats, so the cell under the pointer is an input.
- `CursorManager` calls, `HudManager` and `PlayerBasico` are not modelled: they are cursor glyphs, UI animation, button wiring and rigid-body physics.
- `Awake`/`Instance` singleton bootstrapping is not modelled; collaborators are explicit references.
- Debug logging and the +100 debug key (`HandleAddMoney`) are not modelled; the key only calls `AddMoney`, which is modelled.
- Float time and thresholds are modelled as exact `real`s: `0.3f` is not exactly 0.3, so a press at a time difference within float rounding of 0.3 may be classified differently.
- Grid dimensions, prefab slots and cost tables are fixed after start, although the engine's inspector could change them at run time.
- The engine calls the scripts' `Update` methods in an order the model does not fix. Space is read by three scripts: it places at the keyboard cursor, enters drag mode and cancels the selection. Each script's frame is modelled on its own.
- Engine objects destroyed elsewhere compare equal to null in the engine; the model's references are null only when the code sets them so.
- Ledger.ChargeIsExact: "the balance ends ≥ 0" is stated for non-negative costs only. With a negative configured cost, the unchecked C# subtraction can wrap past the int32 maximum.
