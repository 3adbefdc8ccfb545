/** The in-site tabs component (app/components/tabs.tsx): one state index
    `i`, moved by the arrow, Home and End keys and set by a click; the button
    and panel of index `i` are the selected ones. */
module SiteTabs {
  import opened Wrappers
  import opened Keyboard
  import opened Selection
  import TabsScript

  /** `onKey` with `max = items.length - 1`: the new index from v. */
  function NextIndex(v: int, max: int, key: Key): int
  {
    match key
    case ArrowRight => if v >= max then 0 else v + 1
    case ArrowLeft => if v <= 0 then max else v - 1
    case Home => 0
    case End => max
    case Other => v
  }

  /** For a non-empty list every key keeps an index in range. */
  lemma KeysKeepRange(v: int, n: nat, key: Key)
    requires 0 <= v < n
    ensures 0 <= NextIndex(v, n - 1, key) < n
  {
  }

  /** ArrowRight from the last tab gives the first and ArrowLeft from the
      first the last; in range each arrow undoes the other. */
  lemma ArrowsWrapAndInvert(v: int, n: nat)
    requires 0 <= v < n
    ensures NextIndex(n - 1, n - 1, ArrowRight) == 0 && NextIndex(0, n - 1, ArrowLeft) == n - 1
    ensures NextIndex(NextIndex(v, n - 1, ArrowRight), n - 1, ArrowLeft) == v
    ensures NextIndex(NextIndex(v, n - 1, ArrowLeft), n - 1, ArrowRight) == v
  {
  }

  /** On an index in range the comparisons here agree with the modular
      arithmetic of the generated script's keyboard handler. */
  lemma AgreesWithGeneratedScript(v: int, n: nat, key: Key)
    requires 0 <= v < n
    ensures NextIndex(v, n - 1, key) == TabsScript.KeyTarget(v, n, key).GetOr(v)
  {
  }

  /** `aria-selected={i === idx}` */
  predicate Selected(i: int, idx: int) { i == idx }

  /** `tabIndex={i === idx ? 0 : -1}` */
  function TabIndex(i: int, idx: int): int { if i == idx then 0 else -1 }

  /** `hidden={i !== idx}` */
  predicate Hidden(i: int, idx: int) { i != idx }

  function SelectedButtons(i: int, n: nat): (r: seq<bool>)
    ensures |r| == n
  {
    seq(n, idx requires 0 <= idx < n => Selected(i, idx))
  }

  /** With i in range exactly one button is selected; it alone is in the tab
      order and its panel alone is shown. */
  lemma ExactlyOneSelected(i: int, n: nat)
    requires 0 <= i < n
    ensures CountTrue(SelectedButtons(i, n)) == 1
    ensures forall idx :: 0 <= idx < n ==> (TabIndex(i, idx) == 0 <==> Selected(i, idx)) && (Hidden(i, idx) <==> !Selected(i, idx))
  {
    OneMarked(i, n);
    assert SelectedButtons(i, n) == Marks(i as real, n);
  }

  /** The component's state for `items.length == n`. */
  class TabsComponent {
    const n: nat
    var i: int

    /** `useState(initial)` */
    constructor (n: nat, initial: int)
      ensures this.n == n && i == initial
    {
      this.n := n;
      i := initial;
    }

    /** `onKey` */
    method OnKey(key: Key)
      modifies this
      ensures i == NextIndex(old(i), n - 1, key)
      ensures old(0 <= i < n) ==> 0 <= i < n
    {
      if 0 <= i < n {
        KeysKeepRange(i, n, key);
      }
      i := NextIndex(i, n - 1, key);
    }

    /** `onClick={() => setI(idx)}` */
    method Click(idx: int)
      requires 0 <= idx < n
      modifies this
      ensures i == idx && Selected(i, idx)
    {
      i := idx;
    }
  }
}
