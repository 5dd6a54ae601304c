/**
 * Reordering the four panels of the mural by drag and drop
 * (components/Mural.tsx).
 *
 * `layoutOrder` is kept as the stored value (see `Types.Settings`); the
 * drop handler copies it into a fresh array, looks both dragged ids up
 * with `indexOf`, swaps the two slots in place and stores the array.
 */
module Mural {
  import opened JsValue
  import opened Seqs
  import opened Types
  import Constants

  /** `[...v]` for the values that can be spread: an array's elements, a string's characters. */
  function Spread(v: Value): (items: seq<Value>)
    requires v.Arr? || v.Str?
    ensures v.Arr? ==> items == v.items
    ensures v.Str? ==> |items| == |v.s| && forall i :: 0 <= i < |v.s| ==> items[i] == Str([v.s[i]])
  {
    if v.Arr? then v.items else seq(|v.s|, i requires 0 <= i < |v.s| => Str([v.s[i]]))
  }

  /** The guard of `handleDrop`: both refs set and different. */
  predicate DropApplies(dragItem: Value, dragOverItem: Value) {
    Truthy(dragItem) && Truthy(dragOverItem) && dragItem != dragOverItem
  }

  /** `a[k]` of a JavaScript array, where index -1 reads `undefined`. */
  function At(items: seq<Value>, k: int): Value {
    if 0 <= k < |items| then items[k] else Undefined
  }

  /**
   * The order after the destructuring swap
   * `[a[i], a[j]] = [a[j], a[i]]`, with `i` and `j` found by `indexOf`;
   * an index of -1 names no slot, so a write to it changes no element.
   */
  function DropOrder(items: seq<Value>, dragItem: Value, dragOverItem: Value): (r: seq<Value>)
    ensures |r| == |items|
    ensures forall k :: 0 <= k < |items| && items[k] != dragItem && items[k] != dragOverItem ==> r[k] == items[k]
  {
    var i := IndexOf(items, dragItem);
    var j := IndexOf(items, dragOverItem);
    var vi, vj := At(items, i), At(items, j);
    var afterFirst := if 0 <= i then items[i := vj] else items;
    if 0 <= j then afterFirst[j := vi] else afterFirst
  }

  /**
   * Dropping one present id onto another present id exchanges their two
   * positions and leaves every other position as it was.
   */
  lemma DropSwapsPresentIds(items: seq<Value>, dragItem: Value, dragOverItem: Value)
    requires dragItem in items && dragOverItem in items && dragItem != dragOverItem
    ensures var r := DropOrder(items, dragItem, dragOverItem);
      var i, j := IndexOf(items, dragItem), IndexOf(items, dragOverItem);
      && r[i] == dragOverItem && r[j] == dragItem
      && forall k :: 0 <= k < |items| && k != i && k != j ==> r[k] == items[k]
  {
  }

  /** The new order is a permutation of the old one. */
  lemma DropIsPermutation(items: seq<Value>, dragItem: Value, dragOverItem: Value)
    requires dragItem in items && dragOverItem in items && dragItem != dragOverItem
    ensures multiset(DropOrder(items, dragItem, dragOverItem)) == multiset(items)
  {
    var i, j := IndexOf(items, dragItem), IndexOf(items, dragOverItem);
    var afterFirst := items[i := items[j]];
    assert multiset(afterFirst) == multiset(items) - multiset{items[i]} + multiset{items[j]};
    assert afterFirst[j] == items[j];
    assert multiset(afterFirst[j := items[i]]) == multiset(afterFirst) - multiset{items[j]} + multiset{items[i]};
  }

  /**
   * Dropping the same panel twice gives the original order back: the second
   * swap finds the two ids at each other's positions.
   */
  lemma DropTwiceRestores(items: seq<Value>, dragItem: Value, dragOverItem: Value)
    requires dragItem in items && dragOverItem in items && dragItem != dragOverItem
    requires forall p, q :: 0 <= p < q < |items| ==> items[p] != items[q]
    ensures DropOrder(DropOrder(items, dragItem, dragOverItem), dragItem, dragOverItem) == items
  {
    var i, j := IndexOf(items, dragItem), IndexOf(items, dragOverItem);
    var once := DropOrder(items, dragItem, dragOverItem);
    DropSwapsPresentIds(items, dragItem, dragOverItem);
    assert forall k :: 0 <= k < |once| && k != i && k != j ==> once[k] != dragItem && once[k] != dragOverItem;
    assert IndexOf(once, dragItem) == j by {
      assert once[j] == dragItem && dragItem !in once[..j];
    }
    assert IndexOf(once, dragOverItem) == i by {
      assert once[i] == dragOverItem && dragOverItem !in once[..i];
    }
    DropSwapsPresentIds(once, dragItem, dragOverItem);
  }

  /**
   * A dragged id missing from the stored order makes the swap read
   * `undefined` for it, which lands in the target's slot.
   */
  lemma DropOfAbsentId(items: seq<Value>, dragItem: Value, dragOverItem: Value)
    requires dragItem !in items && dragOverItem in items
    ensures DropOrder(items, dragItem, dragOverItem) == items[IndexOf(items, dragOverItem) := Undefined]
  {
  }

  /** `validLayoutOrder`: the stored order when its `length` is 4, the default order otherwise. */
  function ValidLayoutOrder(layoutOrder: Value): (r: Value)
    ensures HasLengthFour(r)
    ensures HasLengthFour(layoutOrder) ==> r == layoutOrder
    ensures !HasLengthFour(layoutOrder) ==> r == Constants.DefaultLayoutOrder
  {
    if HasLengthFour(layoutOrder) then layoutOrder else Constants.DefaultLayoutOrder
  }

  /** A swap of two present ids in a four-panel order is shown as it was stored. */
  lemma DropKeepsLayoutValid(items: seq<Value>, dragItem: Value, dragOverItem: Value)
    requires |items| == 4
    ensures ValidLayoutOrder(Arr(DropOrder(items, dragItem, dragOverItem))) == Arr(DropOrder(items, dragItem, dragOverItem))
  {
  }

  /**
   * The drag-and-drop state of the mural: the two drag refs, the highlighted
   * drop target (`Null` for none) and the settings.
   */
  class Board {
    var dragItem: Value
    var dragOverItem: Value
    var dragOverId: Value
    var settings: Settings

    constructor(settings: Settings)
      ensures this.settings == settings
      ensures dragItem == Null && dragOverItem == Null && dragOverId == Null
    {
      this.settings := settings;
      dragItem := Null;
      dragOverItem := Null;
      dragOverId := Null;
    }

    /** `handleDragStart(id)`: remembers the dragged panel. */
    method DragStart(id: Value)
      modifies this
      ensures dragItem == id
      ensures dragOverItem == old(dragOverItem) && dragOverId == old(dragOverId) && settings == old(settings)
    {
      dragItem := id;
    }

    /** `handleDragEnter(id)`: remembers and highlights the panel under the pointer. */
    method DragEnter(id: Value)
      modifies this
      ensures dragOverItem == id && dragOverId == id
      ensures dragItem == old(dragItem) && settings == old(settings)
    {
      dragOverItem := id;
      dragOverId := id;
    }

    /** `handleDragLeave`: clears the highlight only; the drop target ref is kept. */
    method DragLeave()
      modifies this
      ensures dragOverId == Null
      ensures dragItem == old(dragItem) && dragOverItem == old(dragOverItem) && settings == old(settings)
    {
      dragOverId := Null;
    }

    /**
     * `handleDrop`: when both refs are set and differ, the two slots are
     * swapped in a copy of the order and only `layoutOrder` is replaced;
     * both refs and the highlight are cleared in every case. Spreading a stored order that is
     * neither an array nor a string throws, so the caller must not drop then.
     */
    method HandleDrop()
      requires DropApplies(dragItem, dragOverItem) ==> settings.layoutOrder.Arr? || settings.layoutOrder.Str?
      modifies this
      ensures dragItem == Null && dragOverItem == Null && dragOverId == Null
      ensures !DropApplies(old(dragItem), old(dragOverItem)) ==> settings == old(settings)
      ensures DropApplies(old(dragItem), old(dragOverItem)) ==>
        settings == old(settings).(layoutOrder := Arr(DropOrder(Spread(old(settings.layoutOrder)), old(dragItem), old(dragOverItem))))
    {
      if DropApplies(dragItem, dragOverItem) {
        var items := Spread(settings.layoutOrder);
        var newLayoutOrder := new Value[|items|](k requires 0 <= k < |items| => items[k]);
        var dragItemIndex := IndexOf(newLayoutOrder[..], dragItem);
        var dragOverItemIndex := IndexOf(newLayoutOrder[..], dragOverItem);
        assert newLayoutOrder[..] == items;
        var first := if 0 <= dragOverItemIndex then newLayoutOrder[dragOverItemIndex] else Undefined;
        var second := if 0 <= dragItemIndex then newLayoutOrder[dragItemIndex] else Undefined;
        if 0 <= dragItemIndex {
          newLayoutOrder[dragItemIndex] := first;
        }
        if 0 <= dragOverItemIndex {
          newLayoutOrder[dragOverItemIndex] := second;
        }
        settings := settings.(layoutOrder := Arr(newLayoutOrder[..]));
      }
      dragItem := Null;
      dragOverItem := Null;
      dragOverId := Null;
    }
  }
}
