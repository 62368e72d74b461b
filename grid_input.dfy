/** The keyboard frame of GridManager.Update: the arrow keys move the cursor,
    Space asks the ledger to place the selected item at the cursor, and
    Delete or Backspace removes the item under the cursor. The ledger is a
    parameter that may be absent, as the GameManager instance may be. */
module GridInput {
  import opened Occupancy
  import opened Grid
  import opened Ledger

  /** The keys pressed down in one frame; `delete` is Delete or Backspace. */
  datatype GridKeys = GridKeys(arrows: Arrows, space: bool, delete: bool)

  /** Whether Space reaches TryPlaceItem: a ledger exists and has an item
      selected. */
  predicate SpacePlaces(keys: GridKeys, hasLedger: bool, selected: int) {
    keys.space && hasLedger && selected >= 0
  }

  method Update(grid: GridManager, game: GameManager?, keys: GridKeys)
    requires grid.Valid()
    requires game != null ==> game.gridManager == grid
    modifies grid`cursorX, grid`cursorY, grid`nextId, grid.occupiedCells, grid.grid, game
    ensures grid.Valid()
    ensures (grid.cursorX, grid.cursorY) == MoveCursor(old(grid.cursorX), old(grid.cursorY), keys.arrows, grid.gridWidth, grid.gridHeight)
    ensures game != null ==> game.selectedItemIndex == old(game.selectedItemIndex)
    ensures game != null && SpacePlaces(keys, true, old(game.selectedItemIndex)) ==>
      var p := TryPlace(game.itemCosts, grid.itemPrefabs, old(game.currentMoney), old(grid.Model()),
                        grid.cursorX, grid.cursorY, game.selectedItemIndex, old(grid.nextId));
      game.currentMoney == p.money && grid.nextId == p.nextId &&
      grid.Model() == if keys.delete then Remove(p.board, grid.cursorX, grid.cursorY) else p.board
    ensures !SpacePlaces(keys, game != null, if game == null then -1 else old(game.selectedItemIndex)) ==>
      (game != null ==> game.currentMoney == old(game.currentMoney)) && grid.nextId == old(grid.nextId) &&
      grid.Model() == if keys.delete then Remove(old(grid.Model()), grid.cursorX, grid.cursorY) else old(grid.Model())
  {
    grid.MoveCursorKeys(keys.arrows);
    if keys.space {
      if game != null && game.selectedItemIndex >= 0 {
        game.TryPlaceItem(grid.cursorX, grid.cursorY, game.selectedItemIndex);
      }
    }
    if keys.delete {
      grid.RemoveItem(grid.cursorX, grid.cursorY);
    }
  }
}
