/** A vertical menu: a list of item labels and the index of the focused item. Down and Up
    move the focus with wrap-around; the key flags are passed in. */
module Menus {
  import opened GoInts

  /** The focus after one input: Down first, then Up, each modulo the item count. */
  function NextFocus(focus: int, n: int, down: bool, up: bool): int
    requires n > 0
  {
    var afterDown := if down then TruncRem(focus + 1, n) else focus;
    if up then TruncRem(afterDown - 1 + n, n) else afterDown
  }

  /** From a valid focus the focus stays valid. */
  lemma FocusStaysInRange(focus: int, n: int, down: bool, up: bool)
    requires 0 <= focus < n
    ensures 0 <= NextFocus(focus, n, down, up) < n
  {
  }

  /** Down moves to the next item and wraps from the last to the first. */
  lemma DownStep(focus: int, n: int)
    requires 0 <= focus < n
    ensures NextFocus(focus, n, true, false) == if focus == n - 1 then 0 else focus + 1
  {
    if focus + 1 == n {
      assert (focus + 1) % n == 0;
    } else {
      assert (focus + 1) % n == focus + 1;
    }
  }

  /** Up moves to the previous item and wraps from the first to the last. */
  lemma UpStep(focus: int, n: int)
    requires 0 <= focus < n
    ensures NextFocus(focus, n, false, true) == if focus == 0 then n - 1 else focus - 1
  {
    if focus == 0 {
      assert (n - 1) % n == n - 1;
    } else {
      assert (focus - 1 + n) % n == focus - 1;
    }
  }

  /** Down and Up in the same input cancel out. */
  lemma DownUpCancel(focus: int, n: int)
    requires 0 <= focus < n
    ensures NextFocus(focus, n, true, true) == focus
  {
    DownStep(focus, n);
    var d := NextFocus(focus, n, true, false);
    if focus == n - 1 {
      assert (0 - 1 + n) % n == n - 1;
    } else {
      assert (d - 1 + n) % n == focus;
    }
  }

  class Menu {
    const items: seq<string>
    var focus: int

    /** NewMenu: the given items with the first one focused. */
    constructor (items: seq<string>)
      ensures this.items == items && focus == 0
    {
      this.items := items;
      focus := 0;
    }

    /** HandleInput: move the focus for Down and Up and report whether Enter was pressed.
        An empty menu would divide by zero, so the menu must have items. */
    method HandleInput(down: bool, up: bool, enter: bool) returns (selected: bool)
      requires |items| > 0
      modifies this
      ensures focus == NextFocus(old(focus), |items|, down, up) && selected == enter
    {
      var n := |items|;
      if down {
        focus := TruncRem(focus + 1, n);
      }
      if up {
        focus := TruncRem(focus - 1 + n, n);
      }
      return enter;
    }

    /** Selected: the focused index. */
    method Selected() returns (index: int)
      ensures index == focus
    {
      return focus;
    }
  }
}
