/** The store-selection machine of PreviewManager as values: the number keys
    1-4 choose a store, an unaffordable or unassigned store is refused, a
    second press of the selected store within 0.3 time units cancels the
    selection, and the ledger's selected item follows the preview. */
module Selection {
  import opened Ledger

  const StoreNames: seq<string> := ["Hamburgueria", "Padaria", "Abibas", "Arcade Alley"]
  const StoreCosts: seq<nat> := [150, 50, 100, 300]
  const DoubleTapThreshold: real := 0.3
  const Placeholder: string := "Selecione uma loja (1-4)"

  /** The index chosen by the number keys pressed in one frame (keys[k] for
      key k + 1): the first pressed key wins, -1 when none is pressed. */
  function KeyIndex(keys: seq<bool>): (r: int)
    requires |keys| == 4
    ensures -1 <= r < 4
    ensures r == -1 <==> forall k :: 0 <= k < 4 ==> !keys[k]
    ensures r >= 0 ==> keys[r] && forall k :: 0 <= k < r ==> !keys[k]
  {
    if keys[0] then 0
    else if keys[1] then 1
    else if keys[2] then 2
    else if keys[3] then 3
    else -1
  }

  /** What the selection machine sees of the ledger (GameManager): nothing when
      there is no ledger, otherwise its balance, its selected item and the
      length of its cost table. */
  datatype LedgerView = NoLedger | LedgerView(money: int32, selected: int, itemCount: nat)

  /** currentPreviewIndex, lastSelectionTime, lastSelectedIndex, whether a
      preview object exists, and the ledger. */
  datatype Selector = Selector(preview: int, lastTime: real, lastIndex: int, shown: bool, ledger: LedgerView)

  /** SetSelectedItem on the ledger, if there is one. */
  function SetSelected(l: LedgerView, index: int): (r: LedgerView)
    ensures r.NoLedger? == l.NoLedger?
    ensures r.LedgerView? ==> r.money == l.money && r.itemCount == l.itemCount && r.selected == SelectionFor(l.itemCount, index)
  {
    match l
    case NoLedger => NoLedger
    case LedgerView(money, _, count) => LedgerView(money, SelectionFor(count, index), count)
  }

  /** Affordability is taken as true when there is no ledger. */
  predicate CanAfford(l: LedgerView, cost: int) {
    l.NoLedger? || l.money >= cost
  }

  datatype SelectOutcome = Selected | InvalidIndex | Unassigned | Unaffordable

  /** SelectStore's checks, in its order: index, prefab, balance. */
  function SelectCheck(l: LedgerView, prefabs: seq<bool>, i: int): (r: SelectOutcome)
    requires |prefabs| == 4
    ensures r == Selected <==> 0 <= i < 4 && prefabs[i] && CanAfford(l, StoreCosts[i])
    ensures r == InvalidIndex <==> !(0 <= i < 4)
    ensures r == Unaffordable <==> 0 <= i < 4 && prefabs[i] && !CanAfford(l, StoreCosts[i])
  {
    if i < 0 || i >= |prefabs| then InvalidIndex
    else if !prefabs[i] then Unassigned
    else if !CanAfford(l, StoreCosts[i]) then Unaffordable
    else Selected
  }

  /** SelectStore: a store that passes the checks becomes the preview and the
      ledger's selection; a refused one changes nothing. */
  function SelectStore(s: Selector, prefabs: seq<bool>, i: int): (r: Selector)
    requires |prefabs| == 4
    ensures SelectCheck(s.ledger, prefabs, i) != Selected ==> r == s
    ensures SelectCheck(s.ledger, prefabs, i) == Selected ==>
      r.preview == i && r.shown && r.ledger == SetSelected(s.ledger, i)
    ensures r.lastTime == s.lastTime && r.lastIndex == s.lastIndex
  {
    if SelectCheck(s.ledger, prefabs, i) == Selected then
      s.(preview := i, shown := true, ledger := SetSelected(s.ledger, i))
    else
      s
  }

  /** HidePreview: no preview object and no current store. */
  function HidePreview(s: Selector): (r: Selector)
    ensures r.preview == -1 && !r.shown
    ensures r.ledger == s.ledger && r.lastTime == s.lastTime && r.lastIndex == s.lastIndex
  {
    s.(preview := -1, shown := false)
  }

  /** CancelSelection: with no current store nothing happens; otherwise the
      ledger's selection is cleared and the preview hidden. */
  function CancelSelection(s: Selector): (r: Selector)
    ensures s.preview == -1 ==> r == s
    ensures s.preview != -1 ==> r == HidePreview(s.(ledger := SetSelected(s.ledger, -1)))
  {
    if s.preview == -1 then s else HidePreview(s.(ledger := SetSelected(s.ledger, -1)))
  }

  /** A press of the key for store `i` at time `now`: a double tap on the
      current store cancels, any other press goes through SelectStore; the
      press time and index are recorded in every case. */
  function PressStore(s: Selector, prefabs: seq<bool>, i: int, now: real): (r: Selector)
    requires |prefabs| == 4 && 0 <= i < 4
    ensures r.lastTime == now && r.lastIndex == i
    ensures s.preview == i && now - s.lastTime < DoubleTapThreshold ==>
      r.preview == -1 && !r.shown && r.ledger == SetSelected(s.ledger, -1)
    ensures !(s.preview == i && now - s.lastTime < DoubleTapThreshold) && SelectCheck(s.ledger, prefabs, i) == Selected ==>
      r.preview == i && r.shown && r.ledger == SetSelected(s.ledger, i)
    ensures !(s.preview == i && now - s.lastTime < DoubleTapThreshold) && SelectCheck(s.ledger, prefabs, i) != Selected ==>
      r == s.(lastTime := now, lastIndex := i)
  {
    var t := if s.preview == i && now - s.lastTime < DoubleTapThreshold then CancelSelection(s)
             else SelectStore(s, prefabs, i);
    t.(lastTime := now, lastIndex := i)
  }

  /** HandleStoreSelection: a frame with no number key changes nothing. */
  function HandleStoreSelection(s: Selector, prefabs: seq<bool>, keys: seq<bool>, now: real): (r: Selector)
    requires |prefabs| == 4 && |keys| == 4
    ensures KeyIndex(keys) == -1 ==> r == s
    ensures KeyIndex(keys) != -1 ==> r.lastTime == now && r.lastIndex == KeyIndex(keys)
    ensures KeyIndex(keys) != -1 ==> r == PressStore(s, prefabs, KeyIndex(keys), now)
  {
    var i := KeyIndex(keys);
    if i == -1 then s else PressStore(s, prefabs, i, now)
  }

  /** HandleCancelInput: V or Space cancels the current selection. */
  function HandleCancelInput(s: Selector, vDown: bool, spaceDown: bool): (r: Selector)
    ensures !vDown && !spaceDown ==> r == s
    ensures r.preview == -1 || r == s
    ensures (vDown || spaceDown) && s.preview != -1 ==>
      r.preview == -1 && !r.shown && r.ledger == SetSelected(s.ledger, -1)
    ensures r.lastTime == s.lastTime && r.lastIndex == s.lastIndex
    ensures s.preview == -1 ==> r == s
  {
    if vDown || spaceDown then CancelSelection(s) else s
  }

  /** The preview index is -1 or a store, and a preview object exists exactly
      when a store is selected. */
  predicate Coherent(s: Selector) {
    -1 <= s.preview < 4 && (s.shown <==> s.preview != -1)
  }

  /** The ledger's selected item equals the preview index (when the ledger's
      cost table covers the four stores). */
  predicate InStep(s: Selector) {
    s.ledger.LedgerView? && s.ledger.itemCount >= 4 ==> s.ledger.selected == s.preview
  }

  lemma SelectionFrameKeepsInvariants(s: Selector, prefabs: seq<bool>, keys: seq<bool>, now: real, vDown: bool, spaceDown: bool)
    requires |prefabs| == 4 && |keys| == 4
    requires Coherent(s) && InStep(s)
    ensures var t := HandleStoreSelection(s, prefabs, keys, now);
      Coherent(t) && InStep(t) && t.ledger.NoLedger? == s.ledger.NoLedger? &&
      (t.ledger.LedgerView? ==> t.ledger.money == s.ledger.money && t.ledger.itemCount == s.ledger.itemCount)
    ensures var t := HandleCancelInput(s, vDown, spaceDown);
      Coherent(t) && InStep(t) && t.ledger.NoLedger? == s.ledger.NoLedger? &&
      (t.ledger.LedgerView? ==> t.ledger.money == s.ledger.money && t.ledger.itemCount == s.ledger.itemCount)
  {
  }

  /** Cancelling twice is cancelling once. */
  lemma CancelIdempotent(s: Selector)
    ensures CancelSelection(CancelSelection(s)) == CancelSelection(s)
  {
  }

  /** A double tap on the current store clears both the preview and the
      ledger's selection. */
  lemma DoubleTapCancels(s: Selector, prefabs: seq<bool>, i: int, now: real)
    requires |prefabs| == 4 && 0 <= i < 4
    requires s.preview == i && now - s.lastTime < DoubleTapThreshold
    ensures var r := PressStore(s, prefabs, i, now);
      r.preview == -1 && !r.shown && r.ledger == SetSelected(s.ledger, -1)
  {
  }

  /** Pressing a store that is refused (unassigned or unaffordable) outside a
      double tap changes nothing but the recorded press. */
  lemma RefusedPressOnlyStamps(s: Selector, prefabs: seq<bool>, i: int, now: real)
    requires |prefabs| == 4 && 0 <= i < 4
    requires !(s.preview == i && now - s.lastTime < DoubleTapThreshold)
    requires SelectCheck(s.ledger, prefabs, i) != Selected
    ensures PressStore(s, prefabs, i, now) == s.(lastTime := now, lastIndex := i)
  {
  }

  /** Selecting a store and pressing it again toggles: within the threshold
      the second press clears the selection; at or after it, with the store
      still affordable, the second press selects it again. */
  lemma SecondPressToggles(s: Selector, prefabs: seq<bool>, i: int, t0: real, t1: real)
    requires |prefabs| == 4 && 0 <= i < 4
    requires !(s.preview == i && t0 - s.lastTime < DoubleTapThreshold)
    requires SelectCheck(s.ledger, prefabs, i) == Selected
    ensures var s1 := PressStore(s, prefabs, i, t0);
      s1.preview == i &&
      (t1 - t0 < DoubleTapThreshold ==> PressStore(s1, prefabs, i, t1).preview == -1) &&
      (t1 - t0 >= DoubleTapThreshold ==> PressStore(s1, prefabs, i, t1).preview == i)
  {
    var s1 := PressStore(s, prefabs, i, t0);
    assert s1.ledger.LedgerView? ==> s1.ledger.money == s.ledger.money;
    assert SelectCheck(s1.ledger, prefabs, i) == Selected;
  }

  /** A successful selection puts the ledger's selected item in step with the
      preview index when the ledger's cost table covers the store. */
  lemma SelectKeepsLedgerInStep(s: Selector, prefabs: seq<bool>, i: int)
    requires |prefabs| == 4
    requires SelectCheck(s.ledger, prefabs, i) == Selected && s.ledger.LedgerView? && i < s.ledger.itemCount
    ensures SelectStore(s, prefabs, i).ledger.selected == SelectStore(s, prefabs, i).preview == i
    ensures SelectStore(s, prefabs, i).ledger.money == s.ledger.money
  {
  }

  function Digit(d: nat): (c: char)
    requires d < 10
    ensures '0' <= c <= '9'
  {
    "0123456789"[d]
  }

  /** Decimal rendering of a non-negative int, as string interpolation does it. */
  function NatToString(n: nat): (s: string)
    ensures |s| > 0 && forall k :: 0 <= k < |s| ==> '0' <= s[k] <= '9'
    ensures |s| > 1 ==> s[0] != '0'
  {
    if n < 10 then [Digit(n)] else NatToString(n / 10) + [Digit(n % 10)]
  }

  /** The value of a string of decimal digits. */
  function DecimalValue(s: string): nat
    requires forall k :: 0 <= k < |s| ==> '0' <= s[k] <= '9'
  {
    if s == [] then 0 else 10 * DecimalValue(s[..|s| - 1]) + (s[|s| - 1] as int - '0' as int)
  }

  /** The rendering reads back as the number it renders. */
  lemma {:induction false} NatToStringRoundTrip(n: nat)
    ensures DecimalValue(NatToString(n)) == n
  {
    var s := NatToString(n);
    if n >= 10 {
      NatToStringRoundTrip(n / 10);
      assert s[..|s| - 1] == NatToString(n / 10);
    }
  }

  /** UpdateStoreUI's text: the store name and cost for a selected store, the
      prompt otherwise. */
  function StoreLabel(i: int): (r: string)
    ensures r == Placeholder <==> !(0 <= i < 4)
  {
    if 0 <= i < |StoreNames| then StoreNames[i] + " - Custo: $" + NatToString(StoreCosts[i])
    else Placeholder
  }

  /** The label shows the store's name and, read back, its cost. */
  lemma LabelShowsNameAndCost(i: int)
    requires 0 <= i < 4
    ensures var prefix := StoreNames[i] + " - Custo: $";
      var text := StoreLabel(i);
      |prefix| < |text| && text[..|prefix|] == prefix &&
      (forall k :: |prefix| <= k < |text| ==> '0' <= text[k] <= '9') &&
      DecimalValue(text[|prefix|..]) == StoreCosts[i]
  {
    var prefix := StoreNames[i] + " - Custo: $";
    assert StoreLabel(i)[|prefix|..] == NatToString(StoreCosts[i]);
    NatToStringRoundTrip(StoreCosts[i]);
  }
}
