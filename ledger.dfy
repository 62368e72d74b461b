/** The currency ledger and purchase gate (GameManager): one 32-bit balance,
    a fixed cost table, the selected item, and TryPlaceItem, which checks the
    item index, affordability and the target cell before it places the item
    and debits its cost. */
module Ledger {
  import opened Occupancy
  import Grid

  /** C#'s 32-bit int. */
  type int32 = x: int | -0x8000_0000 <= x < 0x8000_0000

  /** 2^32, the modulus of unchecked 32-bit arithmetic. */
  const Modulus: int := 0x1_0000_0000

  /** Unchecked (wrapping) conversion of an exact sum or difference to int32:
      the int32 that differs from `x` by a multiple of 2^32. */
  function Wrap32(x: int): (r: int32)
    ensures -0x8000_0000 <= x < 0x8000_0000 ==> r == x
    ensures r == x - ((x + 0x8000_0000) / Modulus) * Modulus
  {
    (x + 0x8000_0000) % Modulus - 0x8000_0000
  }

  /** Wrapping forgets whole multiples of 2^32. */
  lemma WrapShift(x: int, k: int)
    ensures Wrap32(x + k * Modulus) == Wrap32(x)
  {
    var q := (x + 0x8000_0000) / Modulus;
    var r := (x + 0x8000_0000) % Modulus;
    assert x + k * Modulus + 0x8000_0000 == (q + k) * Modulus + r;
  }

  /** The selection SetSelectedItem stores: the index itself when it names an
      item, -1 (nothing selected) otherwise. */
  function SelectionFor(count: nat, index: int): (r: int)
    ensures -1 <= r < count
    ensures 0 <= index < count ==> r == index
    ensures r == index || r == -1
  {
    if index >= 0 && index < count then index else -1
  }

  /** The outcome of TryPlaceItem's three guards, in its order. */
  datatype Gate = BadIndex | CannotAfford | Occupied | Charged

  function PurchaseGate(costs: seq<int32>, money: int32, b: Board, x: int, y: int, i: int): (g: Gate)
    requires WellFormed(b)
    ensures g == Charged <==> 0 <= i < |costs| && money >= costs[i] && InBounds(b, x, y) && !b.occ[x][y]
    ensures g == BadIndex <==> !(0 <= i < |costs|)
    ensures g == CannotAfford <==> 0 <= i < |costs| && money < costs[i]
  {
    if i < 0 || i >= |costs| then BadIndex
    else if money < costs[i] then CannotAfford
    else if IsOccupied(b, x, y) then Occupied
    else Charged
  }

  /** Balance, board and id counter together: what TryPlaceItem changes. */
  datatype Purchase = Purchase(money: int32, board: Board, nextId: nat)

  /** TryPlaceItem: once the three guards pass, PlaceItem is asked to place
      the item (and may still refuse it for a missing prefab) and the cost is
      debited either way. */
  function TryPlace(costs: seq<int32>, prefabs: seq<bool>, money: int32, b: Board, x: int, y: int, i: int, id: nat): (p: Purchase)
    requires WellFormed(b)
    ensures WellFormed(p.board) && p.board.width == b.width && p.board.height == b.height
  {
    if PurchaseGate(costs, money, b, x, y, i) != Charged then
      Purchase(money, b, id)
    else
      Purchase(Wrap32(money - costs[i]), Place(b, x, y, prefabs, i, id),
               if PlaceCheck(b, x, y, prefabs, i) == Placed then id + 1 else id)
  }

  /** Every rejection leaves balance, board and id counter as they were; in
      particular an out-of-bounds cell is rejected through the fail-closed
      occupancy check. */
  lemma RejectionChangesNothing(costs: seq<int32>, prefabs: seq<bool>, money: int32, b: Board, x: int, y: int, i: int, id: nat)
    requires WellFormed(b)
    requires !(0 <= i < |costs|) || money < costs[i] || IsOccupied(b, x, y)
    ensures TryPlace(costs, prefabs, money, b, x, y, i, id) == Purchase(money, b, id)
  {
  }

  /** A purchase that passes the guards debits exactly the item's cost; with
      a non-negative cost the balance stays non-negative. */
  lemma ChargeIsExact(costs: seq<int32>, prefabs: seq<bool>, money: int32, b: Board, x: int, y: int, i: int, id: nat)
    requires WellFormed(b) && PurchaseGate(costs, money, b, x, y, i) == Charged
    requires costs[i] >= 0
    ensures TryPlace(costs, prefabs, money, b, x, y, i, id).money == money - costs[i] >= 0
  {
  }

  /** A charged purchase of an item with an assigned prefab occupies the cell
      with the new item and leaves every other cell as it was. */
  lemma ChargedPurchasePlaces(costs: seq<int32>, prefabs: seq<bool>, money: int32, b: Board, x: int, y: int, i: int, id: nat)
    requires WellFormed(b) && PurchaseGate(costs, money, b, x, y, i) == Charged
    requires i < |prefabs| && prefabs[i]
    ensures var p := TryPlace(costs, prefabs, money, b, x, y, i, id);
      IsOccupied(p.board, x, y) && ItemAt(p.board, x, y) == Ref(id, i) && p.nextId == id + 1 &&
      forall u, v :: InBounds(b, u, v) && (u != x || v != y) ==>
        p.board.occ[u][v] == b.occ[u][v] && p.board.refs[u][v] == b.refs[u][v]
  {
  }

  /** When the prefab slot is missing or unassigned, the guards still pass,
      so the cost is debited while the board stays as it was. */
  lemma ChargedWithoutItem(costs: seq<int32>, prefabs: seq<bool>, money: int32, b: Board, x: int, y: int, i: int, id: nat)
    requires WellFormed(b) && PurchaseGate(costs, money, b, x, y, i) == Charged
    requires i >= |prefabs| || !prefabs[i]
    requires costs[i] > 0
    ensures var p := TryPlace(costs, prefabs, money, b, x, y, i, id);
      p.board == b && p.nextId == id && p.money == money - costs[i] < money
  {
  }

  /** A purchase keeps the board valid and the id counter fresh. */
  lemma PurchasePreservesValid(costs: seq<int32>, prefabs: seq<bool>, money: int32, b: Board, x: int, y: int, i: int, id: nat)
    requires Valid(b) && IdsBelow(b, id)
    ensures var p := TryPlace(costs, prefabs, money, b, x, y, i, id);
      Valid(p.board) && IdsBelow(p.board, p.nextId) && p.nextId >= id
  {
    PlacePreservesValid(b, x, y, prefabs, i, id);
  }

  /** AddMoney(c) followed by a purchase that is charged c gives back the
      original balance, wrap-around included. */
  lemma CreditThenChargeRestores(costs: seq<int32>, prefabs: seq<bool>, money: int32, b: Board, x: int, y: int, i: int, id: nat)
    requires WellFormed(b)
    requires 0 <= i < |costs| && PurchaseGate(costs, Wrap32(money + costs[i]), b, x, y, i) == Charged
    ensures TryPlace(costs, prefabs, Wrap32(money + costs[i]), b, x, y, i, id).money == money
  {
    var c := costs[i];
    var q := (money + c + 0x8000_0000) / Modulus;
    assert Wrap32(money + c) - c == money + (-q) * Modulus;
    WrapShift(money, -q);
  }

  class GameManager {
    const gridManager: Grid.GridManager
    const itemCosts: seq<int32>
    const startingMoney: int32
    var currentMoney: int32
    var selectedItemIndex: int

    ghost predicate Valid()
      reads this, gridManager, gridManager.occupiedCells, gridManager.grid
    {
      gridManager.Valid()
    }

    /** Start: the balance begins at startingMoney, nothing is selected. */
    constructor (grid: Grid.GridManager, costs: seq<int32>, starting: int32)
      ensures gridManager == grid && itemCosts == costs && startingMoney == starting
      ensures currentMoney == starting && selectedItemIndex == -1
    {
      gridManager, itemCosts, startingMoney := grid, costs, starting;
      currentMoney := starting;
      selectedItemIndex := -1;
    }

    function GetCurrentMoney(): (r: int32)
      reads this
      ensures r == currentMoney
    {
      currentMoney
    }

    method TryPlaceItem(x: int, y: int, itemIndex: int)
      requires Valid()
      modifies this`currentMoney, gridManager`nextId, gridManager.occupiedCells, gridManager.grid
      ensures Valid()
      ensures Purchase(currentMoney, gridManager.Model(), gridManager.nextId) ==
        TryPlace(itemCosts, gridManager.itemPrefabs, old(currentMoney), old(gridManager.Model()), x, y, itemIndex, old(gridManager.nextId))
      ensures selectedItemIndex == old(selectedItemIndex)
    {
      if itemIndex < 0 || itemIndex >= |itemCosts| {
        return;
      }
      var cost := itemCosts[itemIndex];
      if currentMoney < cost {
        return;
      }
      if gridManager.IsCellOccupied(x, y) {
        return;
      }
      gridManager.PlaceItem(x, y, itemIndex);
      currentMoney := Wrap32(currentMoney - cost);
    }

    method SetSelectedItem(index: int)
      modifies this`selectedItemIndex
      ensures selectedItemIndex == SelectionFor(|itemCosts|, index)
    {
      selectedItemIndex := if index >= 0 && index < |itemCosts| then index else -1;
    }

    /** The balance part of AddMoney (the gain animation is not modelled). */
    method AddMoney(amount: int32)
      modifies this`currentMoney
      ensures currentMoney == Wrap32(old(currentMoney) + amount)
    {
      currentMoney := Wrap32(currentMoney + amount);
    }
  }
}
