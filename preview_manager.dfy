/** PreviewManager: the store-selection state kept in fields and updated in
    place, with the ledger (GameManager) as an optional collaborator. Each
    method is proved to act as the function of the same name in Selection. */
module Preview {
  import opened Ledger
  import opened Selection

  class PreviewManager {
    /** Whether the prefab of each of the four stores is assigned. */
    const storePrefabs: seq<bool>
    /** The ledger; null when there is no GameManager instance. */
    const game: GameManager?
    /** Whether the store-name text element exists. */
    const hasNameText: bool
    var currentPreviewIndex: int
    var lastSelectionTime: real
    var lastSelectedIndex: int
    /** Whether a preview object exists. */
    var previewShown: bool
    /** The store-name text. */
    var storeLabel: string

    ghost function View(): Selector
      reads this, game
    {
      Selector(currentPreviewIndex, lastSelectionTime, lastSelectedIndex, previewShown,
        if game == null then NoLedger
        else LedgerView(game.currentMoney, game.selectedItemIndex, |game.itemCosts|))
    }

    /** The selection is coherent and the label shows the current store. */
    ghost predicate Valid()
      reads this, game
    {
      |storePrefabs| == 4 && Coherent(View()) &&
      (hasNameText ==> storeLabel == StoreLabel(currentPreviewIndex))
    }

    /** Awake and Start: no store selected, no preview, the prompt shown. */
    constructor (hamburgueria: bool, padaria: bool, abibas: bool, arcadeAlley: bool, ledger: GameManager?, nameText: bool)
      ensures Valid()
      ensures storePrefabs == [hamburgueria, padaria, abibas, arcadeAlley] && game == ledger && hasNameText == nameText
      ensures currentPreviewIndex == -1 && lastSelectionTime == 0.0 && lastSelectedIndex == -1 && !previewShown
      ensures hasNameText ==> storeLabel == Placeholder
    {
      storePrefabs := [hamburgueria, padaria, abibas, arcadeAlley];
      game := ledger;
      hasNameText := nameText;
      currentPreviewIndex, lastSelectionTime, lastSelectedIndex := -1, 0.0, -1;
      previewShown := false;
      storeLabel := if nameText then Placeholder else "";
    }

    method UpdateStoreUI()
      modifies this`storeLabel
      ensures hasNameText ==> storeLabel == StoreLabel(currentPreviewIndex)
      ensures !hasNameText ==> storeLabel == old(storeLabel)
    {
      if hasNameText {
        if 0 <= currentPreviewIndex < |StoreNames| {
          storeLabel := StoreNames[currentPreviewIndex] + " - Custo: $" + NatToString(StoreCosts[currentPreviewIndex]);
        } else {
          storeLabel := Placeholder;
        }
      }
    }

    method SelectStore(storeIndex: int)
      requires Valid()
      modifies this, game
      ensures Valid()
      ensures View() == Selection.SelectStore(old(View()), storePrefabs, storeIndex)
    {
      if storeIndex < 0 || storeIndex >= |storePrefabs| {
        return;
      }
      if !storePrefabs[storeIndex] {
        return;
      }
      var cost := StoreCosts[storeIndex];
      var canAfford := game == null || game.GetCurrentMoney() >= cost;
      if !canAfford {
        return;
      }
      currentPreviewIndex := storeIndex;
      if game != null {
        game.SetSelectedItem(storeIndex);
      }
      previewShown := true;
      UpdateStoreUI();
    }

    method HidePreview()
      requires Valid()
      modifies this
      ensures Valid()
      ensures View() == Selection.HidePreview(old(View()))
    {
      previewShown := false;
      currentPreviewIndex := -1;
      UpdateStoreUI();
    }

    method CancelSelection()
      requires Valid()
      modifies this, game
      ensures Valid()
      ensures View() == Selection.CancelSelection(old(View()))
    {
      if currentPreviewIndex == -1 {
        return;
      }
      if game != null {
        game.SetSelectedItem(-1);
      }
      HidePreview();
    }

    /** The number-key part of a frame at time `now`; keys[k] is key k + 1. */
    method HandleStoreSelection(keys: seq<bool>, now: real)
      requires Valid() && |keys| == 4
      modifies this, game
      ensures Valid()
      ensures View() == Selection.HandleStoreSelection(old(View()), storePrefabs, keys, now)
    {
      var index := -1;
      if keys[0] {
        index := 0;
      } else if keys[1] {
        index := 1;
      } else if keys[2] {
        index := 2;
      } else if keys[3] {
        index := 3;
      }
      if index != -1 {
        var timeSinceLast := now - lastSelectionTime;
        if currentPreviewIndex == index && timeSinceLast < DoubleTapThreshold {
          CancelSelection();
        } else {
          SelectStore(index);
        }
        lastSelectionTime := now;
        lastSelectedIndex := index;
      }
    }

    method HandleCancelInput(vDown: bool, spaceDown: bool)
      requires Valid()
      modifies this, game
      ensures Valid()
      ensures View() == Selection.HandleCancelInput(old(View()), vDown, spaceDown)
    {
      if vDown || spaceDown {
        CancelSelection();
      }
    }
  }
}
