/** The grid occupancy authority (GridManager): two gridWidth-by-gridHeight
    arrays, one of occupancy flags and one of references to placed items,
    updated in place, and a keyboard cursor clamped to the grid. Prefab slots
    are modelled as "assigned" flags and instantiated items as fresh ids. */
module Grid {
  import opened Occupancy

  /** Mathf.Clamp on integers: below `min` gives `min`, otherwise above `max`
      gives `max`. */
  function Clamp(value: int, min: int, max: int): (r: int)
    ensures min <= max ==> min <= r <= max
    ensures min <= value <= max ==> r == value
    ensures r == value || r == min || r == max
    ensures value < min ==> r == min
    ensures min <= max && value > max ==> r == max
  {
    if value < min then min else if value > max then max else value
  }

  /** The arrow keys pressed down in one frame. */
  datatype Arrows = Arrows(up: bool, down: bool, left: bool, right: bool)

  /** The cursor after one frame of arrow keys, applied up, down, left, right,
      each step clamped to the grid. On a grid of at least one cell, a cursor
      inside it stays inside and moves by at most one cell on each axis. */
  function MoveCursor(cx: int, cy: int, keys: Arrows, width: nat, height: nat): (c: (int, int))
    ensures width > 0 && 0 <= cx < width ==> 0 <= c.0 < width && -1 <= c.0 - cx <= 1
    ensures height > 0 && 0 <= cy < height ==> 0 <= c.1 < height && -1 <= c.1 - cy <= 1
    ensures !keys.left && !keys.right ==> c.0 == cx
    ensures !keys.up && !keys.down ==> c.1 == cy
    ensures height > 0 && 0 <= cy < height && keys.up && !keys.down ==> c.1 == (if cy + 1 < height then cy + 1 else cy)
    ensures height > 0 && 0 <= cy < height && keys.down && !keys.up ==> c.1 == (if cy > 0 then cy - 1 else cy)
    ensures width > 0 && 0 <= cx < width && keys.left && !keys.right ==> c.0 == (if cx > 0 then cx - 1 else cx)
    ensures width > 0 && 0 <= cx < width && keys.right && !keys.left ==> c.0 == (if cx + 1 < width then cx + 1 else cx)
  {
    var y1 := if keys.up then Clamp(cy + 1, 0, height - 1) else cy;
    var y2 := if keys.down then Clamp(y1 - 1, 0, height - 1) else y1;
    var x1 := if keys.left then Clamp(cx - 1, 0, width - 1) else cx;
    var x2 := if keys.right then Clamp(x1 + 1, 0, width - 1) else x1;
    (x2, y2)
  }

  class GridManager {
    const gridWidth: nat
    const gridHeight: nat
    /** itemPrefabs[i]: whether the prefab slot i is assigned. */
    const itemPrefabs: seq<bool>
    const occupiedCells: array2<bool>
    const grid: array2<ItemRef>
    var cursorX: int
    var cursorY: int
    /** The id the next instantiated item receives. */
    var nextId: nat

    ghost predicate Shaped() {
      occupiedCells.Length0 == gridWidth && occupiedCells.Length1 == gridHeight &&
      grid.Length0 == gridWidth && grid.Length1 == gridHeight
    }

    /** The two arrays as a board value. */
    ghost function Model(): (b: Board)
      reads occupiedCells, grid
      requires Shaped()
      ensures WellFormed(b) && b.width == gridWidth && b.height == gridHeight
      ensures forall x, y :: 0 <= x < gridWidth && 0 <= y < gridHeight ==>
        b.occ[x][y] == occupiedCells[x, y] && b.refs[x][y] == grid[x, y]
    {
      Board(gridWidth, gridHeight,
        seq(gridWidth, x reads occupiedCells requires 0 <= x < gridWidth =>
          seq(gridHeight, y reads occupiedCells requires 0 <= y < gridHeight => occupiedCells[x, y])),
        seq(gridWidth, x reads grid requires 0 <= x < gridWidth =>
          seq(gridHeight, y reads grid requires 0 <= y < gridHeight => grid[x, y])))
    }

    /** Flags agree with references, ids are fresh below nextId, and on a
        grid of at least one cell the cursor is inside it. */
    ghost predicate Valid()
      reads this, occupiedCells, grid
    {
      Shaped() && Occupancy.Valid(Model()) && IdsBelow(Model(), nextId) &&
      (gridWidth > 0 ==> 0 <= cursorX < gridWidth) &&
      (gridHeight > 0 ==> 0 <= cursorY < gridHeight)
    }

    /** Start: both arrays allocated empty, the cursor at (0, 0). */
    constructor (width: nat, height: nat, prefabs: seq<bool>)
      ensures Valid() && fresh(occupiedCells) && fresh(grid)
      ensures gridWidth == width && gridHeight == height && itemPrefabs == prefabs
      ensures Model() == Empty(width, height)
      ensures cursorX == 0 && cursorY == 0
    {
      gridWidth, gridHeight, itemPrefabs := width, height, prefabs;
      occupiedCells := new bool[width, height]((x, y) => false);
      grid := new ItemRef[width, height]((x, y) => Null);
      cursorX, cursorY, nextId := 0, 0, 0;
      new;
      NoneOccupiedIsEmpty(Model());
    }

    /** Out-of-bounds coordinates count as occupied. */
    function IsCellOccupied(x: int, y: int): (r: bool)
      reads this, occupiedCells, grid
      requires Valid()
      ensures r == IsOccupied(Model(), x, y)
    {
      if x >= 0 && x < gridWidth && y >= 0 && y < gridHeight then occupiedCells[x, y] else true
    }

    function GetItemAt(x: int, y: int): (r: ItemRef)
      reads this, occupiedCells, grid
      requires Valid()
      ensures r == ItemAt(Model(), x, y)
      ensures r != Null <==> IsCellOccupied(x, y) && InBounds(Model(), x, y)
    {
      if x >= 0 && x < gridWidth && y >= 0 && y < gridHeight then grid[x, y] else Null
    }

    method PlaceItem(x: int, y: int, itemIndex: int)
      requires Valid()
      modifies this`nextId, occupiedCells, grid
      ensures Valid()
      ensures Model() == Place(old(Model()), x, y, itemPrefabs, itemIndex, old(nextId))
      ensures nextId == if PlaceCheck(old(Model()), x, y, itemPrefabs, itemIndex) == Placed then old(nextId) + 1 else old(nextId)
    {
      ghost var b := Model();
      PlacePreservesValid(b, x, y, itemPrefabs, itemIndex, nextId);
      if x < 0 || x >= gridWidth || y < 0 || y >= gridHeight {
        return;
      }
      if IsCellOccupied(x, y) {
        return;
      }
      if itemIndex < 0 || itemIndex >= |itemPrefabs| || !itemPrefabs[itemIndex] {
        return;
      }
      grid[x, y] := Ref(nextId, itemIndex);
      occupiedCells[x, y] := true;
      nextId := nextId + 1;
      SameBoard(Model(), Place(b, x, y, itemPrefabs, itemIndex, nextId - 1));
    }

    method RemoveItem(x: int, y: int)
      requires Valid()
      modifies occupiedCells, grid
      ensures Valid()
      ensures Model() == Remove(old(Model()), x, y)
    {
      ghost var b := Model();
      RemovePreservesValid(b, x, y, nextId);
      if x < 0 || x >= gridWidth || y < 0 || y >= gridHeight {
        return;
      }
      if !occupiedCells[x, y] {
        return;
      }
      if grid[x, y] != Null {
        grid[x, y] := Null;
      }
      occupiedCells[x, y] := false;
      SameBoard(Model(), Remove(b, x, y));
    }

    /** Removes the item of every cell, column by column. */
    method ClearGrid()
      requires Valid()
      modifies occupiedCells, grid
      ensures Valid()
      ensures Model() == Empty(gridWidth, gridHeight)
    {
      var x := 0;
      while x < gridWidth
        invariant 0 <= x <= gridWidth
        invariant Valid()
        invariant forall u, v :: 0 <= u < x && 0 <= v < gridHeight ==> !occupiedCells[u, v]
      {
        var y := 0;
        while y < gridHeight
          invariant 0 <= y <= gridHeight
          invariant Valid()
          invariant forall u, v :: 0 <= u < x && 0 <= v < gridHeight ==> !occupiedCells[u, v]
          invariant forall v :: 0 <= v < y ==> !occupiedCells[x, v]
        {
          RemoveItem(x, y);
          y := y + 1;
        }
        x := x + 1;
      }
      NoneOccupiedIsEmpty(Model());
    }

    /** The arrow-key part of a frame. */
    method MoveCursorKeys(keys: Arrows)
      requires Valid()
      modifies this`cursorX, this`cursorY
      ensures Valid()
      ensures (cursorX, cursorY) == MoveCursor(old(cursorX), old(cursorY), keys, gridWidth, gridHeight)
    {
      ghost var board := Model();
      if keys.up { cursorY := Clamp(cursorY + 1, 0, gridHeight - 1); }
      if keys.down { cursorY := Clamp(cursorY - 1, 0, gridHeight - 1); }
      if keys.left { cursorX := Clamp(cursorX - 1, 0, gridWidth - 1); }
      if keys.right { cursorX := Clamp(cursorX + 1, 0, gridWidth - 1); }
      assert Model() == board;
    }
  }
}
