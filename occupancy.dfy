/** The grid occupancy authority's state as a value: a width-by-height matrix of
    occupancy flags beside a matrix of references to placed items, and the
    place / remove / query / clear operations over it. The class
    Grid.GridManager keeps the same state in two arrays and is proved to act
    on it exactly as the functions below say. */
module Occupancy {

  /** An entry of the item matrix: null, or an item instantiated from the
      prefab at index `prefab`, told apart from every other item by `id`. */
  datatype ItemRef = Null | Ref(id: nat, prefab: nat)

  /** occ[x][y] and refs[x][y] describe cell (x, y). */
  datatype Board = Board(width: nat, height: nat, occ: seq<seq<bool>>, refs: seq<seq<ItemRef>>)

  /** Why a placement is refused, in the order the checks are made. */
  datatype PlaceOutcome = Placed | OutOfBounds | CellOccupied | InvalidItemIndex

  predicate WellFormed(b: Board) {
    |b.occ| == b.width && |b.refs| == b.width &&
    forall x :: 0 <= x < b.width ==> |b.occ[x]| == b.height && |b.refs[x]| == b.height
  }

  predicate InBounds(b: Board, x: int, y: int) {
    0 <= x < b.width && 0 <= y < b.height
  }

  /** A cell is occupied exactly when it holds a reference. */
  predicate Consistent(b: Board)
    requires WellFormed(b)
  {
    forall x, y :: 0 <= x < b.width && 0 <= y < b.height ==> (b.occ[x][y] <==> b.refs[x][y] != Null)
  }

  predicate Valid(b: Board) {
    WellFormed(b) && Consistent(b)
  }

  /** Every placed item has an id below `next`, so an item made with id `next`
      differs from all of them. */
  predicate IdsBelow(b: Board, next: nat)
    requires WellFormed(b)
  {
    forall x, y :: 0 <= x < b.width && 0 <= y < b.height && b.refs[x][y].Ref? ==> b.refs[x][y].id < next
  }

  /** The board of a freshly started grid: nothing occupied, no references. */
  function Empty(width: nat, height: nat): (b: Board)
    ensures Valid(b) && b.width == width && b.height == height
    ensures forall x, y :: InBounds(b, x, y) ==> !b.occ[x][y] && b.refs[x][y] == Null
  {
    Board(width, height, seq(width, _ => seq(height, _ => false)), seq(width, _ => seq(height, _ => Null)))
  }

  /** Occupancy with the fail-closed boundary: outside the grid counts as occupied. */
  function IsOccupied(b: Board, x: int, y: int): (r: bool)
    requires WellFormed(b)
    ensures !r <==> InBounds(b, x, y) && !b.occ[x][y]
  {
    if 0 <= x < b.width && 0 <= y < b.height then b.occ[x][y] else true
  }

  /** The item placed at a cell, null for a free cell and outside the grid. */
  function ItemAt(b: Board, x: int, y: int): (r: ItemRef)
    requires WellFormed(b)
    ensures !InBounds(b, x, y) ==> r == Null
    ensures Consistent(b) ==> (r != Null <==> InBounds(b, x, y) && b.occ[x][y])
  {
    if 0 <= x < b.width && 0 <= y < b.height then b.refs[x][y] else Null
  }

  /** The checks PlaceItem makes, in its order: bounds, occupancy, then the
      item index and whether its prefab is assigned. */
  function PlaceCheck(b: Board, x: int, y: int, prefabs: seq<bool>, i: int): (r: PlaceOutcome)
    requires WellFormed(b)
    ensures r == Placed <==> InBounds(b, x, y) && !b.occ[x][y] && 0 <= i < |prefabs| && prefabs[i]
    ensures r == OutOfBounds <==> !InBounds(b, x, y)
    ensures r == CellOccupied <==> InBounds(b, x, y) && b.occ[x][y]
  {
    if x < 0 || x >= b.width || y < 0 || y >= b.height then OutOfBounds
    else if IsOccupied(b, x, y) then CellOccupied
    else if i < 0 || i >= |prefabs| || !prefabs[i] then InvalidItemIndex
    else Placed
  }

  /** PlaceItem: when every check passes, cell (x, y) gets the new item `id`
      made from prefab `i` and is marked occupied; otherwise nothing changes. */
  function Place(b: Board, x: int, y: int, prefabs: seq<bool>, i: int, id: nat): (r: Board)
    requires WellFormed(b)
    ensures WellFormed(r) && r.width == b.width && r.height == b.height
    ensures PlaceCheck(b, x, y, prefabs, i) != Placed ==> r == b
    ensures PlaceCheck(b, x, y, prefabs, i) == Placed ==> IsOccupied(r, x, y) && ItemAt(r, x, y) == Ref(id, i)
    ensures forall u, v :: InBounds(b, u, v) && (u != x || v != y) ==> r.occ[u][v] == b.occ[u][v] && r.refs[u][v] == b.refs[u][v]
  {
    if PlaceCheck(b, x, y, prefabs, i) == Placed then
      b.(occ := b.occ[x := b.occ[x][y := true]], refs := b.refs[x := b.refs[x][y := Ref(id, i)]])
    else
      b
  }

  /** RemoveItem: an occupied in-bounds cell becomes free with a null
      reference; out of bounds or on a free cell nothing changes. */
  function Remove(b: Board, x: int, y: int): (r: Board)
    requires WellFormed(b)
    ensures WellFormed(r) && r.width == b.width && r.height == b.height
    ensures IsOccupied(b, x, y) && InBounds(b, x, y) ==> !IsOccupied(r, x, y) && ItemAt(r, x, y) == Null
    ensures !(IsOccupied(b, x, y) && InBounds(b, x, y)) ==> r == b
    ensures forall u, v :: InBounds(b, u, v) && (u != x || v != y) ==> r.occ[u][v] == b.occ[u][v] && r.refs[u][v] == b.refs[u][v]
  {
    if 0 <= x < b.width && 0 <= y < b.height && b.occ[x][y] then
      b.(occ := b.occ[x := b.occ[x][y := false]], refs := b.refs[x := b.refs[x][y := Null]])
    else
      b
  }

  /** Placing keeps every cell's flag in agreement with its reference, and
      the new id is below the advanced counter. */
  lemma PlacePreservesValid(b: Board, x: int, y: int, prefabs: seq<bool>, i: int, id: nat)
    requires Valid(b) && IdsBelow(b, id)
    ensures Valid(Place(b, x, y, prefabs, i, id))
    ensures IdsBelow(Place(b, x, y, prefabs, i, id), if PlaceCheck(b, x, y, prefabs, i) == Placed then id + 1 else id)
  {
    var r := Place(b, x, y, prefabs, i, id);
    if PlaceCheck(b, x, y, prefabs, i) == Placed {
      forall u, v | InBounds(b, u, v)
        ensures (r.occ[u][v] <==> r.refs[u][v] != Null)
        ensures r.refs[u][v].Ref? ==> r.refs[u][v].id < id + 1
      {
        if u == x && v == y {
          assert r.occ[u][v] && r.refs[u][v] == Ref(id, i);
        }
      }
    }
  }

  /** Removing keeps every cell's flag in agreement with its reference. */
  lemma RemovePreservesValid(b: Board, x: int, y: int, next: nat)
    requires Valid(b) && IdsBelow(b, next)
    ensures Valid(Remove(b, x, y)) && IdsBelow(Remove(b, x, y), next)
  {
    var r := Remove(b, x, y);
    forall u, v | InBounds(b, u, v)
      ensures (r.occ[u][v] <==> r.refs[u][v] != Null)
      ensures r.refs[u][v].Ref? ==> r.refs[u][v].id < next
    {
      if u == x && v == y && InBounds(b, x, y) && b.occ[x][y] {
        assert !r.occ[u][v] && r.refs[u][v] == Null;
      }
    }
  }

  /** Removing what was just placed gives back the board exactly. */
  lemma PlaceRemoveRoundTrip(b: Board, x: int, y: int, prefabs: seq<bool>, i: int, id: nat)
    requires Valid(b) && PlaceCheck(b, x, y, prefabs, i) == Placed
    ensures Remove(Place(b, x, y, prefabs, i, id), x, y) == b
  {
    var r := Remove(Place(b, x, y, prefabs, i, id), x, y);
    assert r.occ[x] == b.occ[x];
    assert r.refs[x] == b.refs[x];
  }

  /** Once a cell has been placed on, a second placement there is refused as
      occupied, whatever item is asked for. */
  lemma PlaceTwiceRefused(b: Board, x: int, y: int, prefabs: seq<bool>, i: int, j: int, id: nat)
    requires WellFormed(b) && PlaceCheck(b, x, y, prefabs, i) == Placed
    ensures PlaceCheck(Place(b, x, y, prefabs, i, id), x, y, prefabs, j) == CellOccupied
  {
  }

  /** After a removal at an in-bounds cell the cell is free, so placing any
      item with an assigned prefab there succeeds. */
  lemma RemoveThenPlaceSucceeds(b: Board, x: int, y: int, prefabs: seq<bool>, i: int)
    requires WellFormed(b) && InBounds(b, x, y) && 0 <= i < |prefabs| && prefabs[i]
    ensures PlaceCheck(Remove(b, x, y), x, y, prefabs, i) == Placed
  {
  }

  /** Two well-formed boards that agree on every cell are equal. */
  lemma SameBoard(a: Board, b: Board)
    requires WellFormed(a) && WellFormed(b) && a.width == b.width && a.height == b.height
    requires forall x, y :: InBounds(a, x, y) ==> a.occ[x][y] == b.occ[x][y] && a.refs[x][y] == b.refs[x][y]
    ensures a == b
  {
    forall x | 0 <= x < a.width
      ensures a.occ[x] == b.occ[x] && a.refs[x] == b.refs[x]
    {
      assert forall y :: 0 <= y < a.height ==> a.occ[x][y] == b.occ[x][y] && a.refs[x][y] == b.refs[x][y];
    }
  }

  /** A valid board with no occupied cell is the empty board. */
  lemma NoneOccupiedIsEmpty(b: Board)
    requires Valid(b)
    requires forall x, y :: InBounds(b, x, y) ==> !b.occ[x][y]
    ensures b == Empty(b.width, b.height)
  {
    SameBoard(b, Empty(b.width, b.height));
  }
}
