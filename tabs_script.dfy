/** The behaviour of the script that `build` embeds in the generated document
    (app/tabs/page.tsx): the roving tabindex of `activate`, the keyboard
    handler of every tab button, and the initial selection restored from the
    `last_active_tab_index` cookie.  It follows the keyboard interaction of the
    WAI-ARIA Authoring Practices Tabs Pattern: Left and Right arrows move to the
    previous and next tab with wrap-around, Home and End to the first and last. */
module TabsScript {
  import opened Wrappers
  import opened Keyboard
  import opened TabsGenerator
  import opened Selection

  /* ---------- the keyboard handler ---------- */

  /** The index the keydown handler of button i (of n) activates, or None for
      a key it ignores.  For the non-negative operands here JavaScript's `%`
      and Dafny's agree. */
  function KeyTarget(i: int, n: int, key: Key): (r: Option<int>)
    requires 0 <= i < n
    ensures r.None? <==> key == Other
    ensures r.Some? ==> 0 <= r.value < n
    ensures key == ArrowLeft ==> r == Some(if i == 0 then n - 1 else i - 1)
    ensures key == ArrowRight ==> r == Some(if i == n - 1 then 0 else i + 1)
    ensures key == Home ==> r == Some(0)
    ensures key == End ==> r == Some(n - 1)
  {
    WrapAround(i, n);
    match key
    case ArrowLeft => Some((i - 1 + n) % n)
    case ArrowRight => Some((i + 1) % n)
    case Home => Some(0)
    case End => Some(n - 1)
    case Other => None
  }

  lemma WrapAround(i: int, n: int)
    requires 0 <= i < n
    ensures (i - 1 + n) % n == if i == 0 then n - 1 else i - 1
    ensures (i + 1) % n == if i == n - 1 then 0 else i + 1
  {
    if i == 0 {
      assert (i - 1 + n) % n == (n - 1) % n;
    } else {
      assert i - 1 + n == (i - 1) + 1 * n;
    }
    if i == n - 1 {
      assert i + 1 == 0 + 1 * n;
    }
  }

  /** Left undoes Right and Right undoes Left. */
  lemma ArrowsAreInverse(i: int, n: int)
    requires 0 <= i < n
    ensures KeyTarget(KeyTarget(i, n, ArrowRight).value, n, ArrowLeft) == Some(i)
    ensures KeyTarget(KeyTarget(i, n, ArrowLeft).value, n, ArrowRight) == Some(i)
  {
  }

  /* ---------- the initial selection ---------- */

  /** What `Number(getCookie('last_active_tab_index'))` gives: NaN for a
      missing-number text, an infinity, or a finite value (Number(null) is 0). */
  datatype JsNumber = NaN | Infinity(negative: bool) | Finite(value: real)

  /** `start` as the script computes it: the restored value whenever it is a
      number with 0 <= sv < tabs.length, 0 otherwise. */
  function StartAsWritten(remember: bool, sv: JsNumber, n: nat): (r: real)
    ensures r == 0.0 || (remember && sv == Finite(r))
    ensures n >= 1 ==> 0.0 <= r < n as real
    ensures remember && sv.Finite? && 0.0 <= sv.value < n as real ==> r == sv.value
  {
    if remember && sv.Finite? && 0.0 <= sv.value < n as real then sv.value else 0.0
  }

  /** A cookie such as `last_active_tab_index=0.5` passes the script's check,
      and then no button is selected. */
  lemma NonIntegerCookieSelectsNothing(v: real, n: nat)
    requires 0.0 < v < n as real && v.Floor as real != v
    ensures StartAsWritten(true, Finite(v), n) == v
    ensures CountTrue(Marks(StartAsWritten(true, Finite(v), n), n)) == 0
  {
    MarksCount(v, n);
  }

  lemma HalfCookieExample()
    ensures StartAsWritten(true, Finite(0.5), 3) == 0.5
    ensures CountTrue(Marks(0.5, 3)) == 0
  {
    NonIntegerCookieSelectsNothing(0.5, 3);
  }

  /** The initial selection as intended: the restored value when it is the
      index of a button, otherwise 0.  Exactly one button is then selected. */
  function Start(remember: bool, sv: JsNumber, n: nat): (r: int)
    requires n >= 1
    ensures 0 <= r < n
    ensures remember && sv.Finite? && IsIndex(sv.value, n) ==> r as real == sv.value
    ensures !(remember && sv.Finite? && IsIndex(sv.value, n)) ==> r == 0
    ensures CountTrue(Marks(r as real, n)) == 1
  {
    var r := if remember && sv.Finite? && IsIndex(sv.value, n) then sv.value.Floor else 0;
    MarksCount(r as real, n);
    r
  }

  /** A tab the script wrote to the cookie is the one selected on the next
      load. */
  lemma CookieRoundTrip(k: int, n: nat)
    requires 0 <= k < n
    ensures Start(true, Finite(k as real), n) == k
  {
  }

  /* ---------- the document's state ---------- */

  /** The attributes and inline style `activate` sets on one tab button. */
  datatype TabAttrs = TabAttrs(ariaSelected: string, tabindex: string, background: string, color: string, borderColor: string)

  /** `setAttribute('aria-selected', …)`, `setAttribute('tabindex', …)` and
      `styleTab(t, sel)`. */
  function Attrs(sel: bool): TabAttrs
  {
    if sel then TabAttrs("true", "0", "var(--accent)", "#ffffff", "var(--accent)")
    else TabAttrs("false", "-1", "rgba(148,163,184,0.12)", "#e5e7eb", "#334155")
  }

  /** Which buttons carry aria-selected "true". */
  function SelectedOf(attrs: seq<TabAttrs>): (r: seq<bool>)
    ensures |r| == |attrs| && forall idx :: 0 <= idx < |attrs| ==> r[idx] == (attrs[idx].ariaSelected == "true")
  {
    seq(|attrs|, idx requires 0 <= idx < |attrs| => attrs[idx].ariaSelected == "true")
  }

  /** The attributes of n buttons after `activate(k, …)`. */
  function ActiveAttrs(n: nat, k: int): (r: seq<TabAttrs>)
    ensures |r| == n && forall idx :: 0 <= idx < n ==> r[idx] == Attrs(idx == k)
  {
    seq(n, idx requires 0 <= idx < n => Attrs(idx == k))
  }

  /** The hidden flags of n panels after `activate(k, …)`. */
  function ActiveHidden(n: nat, k: int): (r: seq<bool>)
    ensures |r| == n && forall idx :: 0 <= idx < n ==> r[idx] == (idx != k)
  {
    seq(n, idx requires 0 <= idx < n => idx != k)
  }

  /** After `activate(k, …)` button k alone is selected. */
  lemma ActivatedSelectsOne(n: nat, k: int)
    requires 0 <= k < n
    ensures CountTrue(SelectedOf(ActiveAttrs(n, k))) == 1
  {
    assert SelectedOf(ActiveAttrs(n, k)) == Marks(k as real, n);
    OneMarked(k, n);
  }

  /** `document.getElementById(id)` among the panels: the first panel in
      document order with that id. */
  function PanelIndex(panelIds: seq<string>, id: string): (r: Option<nat>)
    ensures r.Some? ==> r.value < |panelIds| && panelIds[r.value] == id
  {
    if panelIds == [] then None
    else if panelIds[0] == id then Some(0)
    else match PanelIndex(panelIds[1..], id)
      case None => None
      case Some(k) => Some(k + 1)
  }

  /** The lookup finds the first panel with that id, and finds none only
      when no panel has it. */
  lemma {:induction false} PanelIndexFirst(panelIds: seq<string>, id: string)
    ensures PanelIndex(panelIds, id).Some? ==> forall j :: 0 <= j < PanelIndex(panelIds, id).value ==> panelIds[j] != id
    ensures PanelIndex(panelIds, id).None? ==> forall j :: 0 <= j < |panelIds| ==> panelIds[j] != id
  {
    if panelIds != [] && panelIds[0] != id {
      PanelIndexFirst(panelIds[1..], id);
      assert forall j :: 1 <= j < |panelIds| ==> panelIds[j] == panelIds[1..][j - 1];
    }
  }

  function ButtonIds(d: Layout): (r: seq<string>)
    ensures |r| == |d.buttons| && forall k :: 0 <= k < |r| ==> r[k] == d.buttons[k].id
  {
    seq(|d.buttons|, k requires 0 <= k < |d.buttons| => d.buttons[k].id)
  }

  function PanelIds(d: Layout): (r: seq<string>)
    ensures |r| == |d.panels| && forall k :: 0 <= k < |r| ==> r[k] == d.panels[k].id
  {
    seq(|d.panels|, k requires 0 <= k < |d.panels| => d.panels[k].id)
  }

  /** The lookup `getElementById(t.id+'-p')` in `activate` finds, for button
      idx of a generated document, panel idx and no other. */
  predicate Paired(ids: seq<string>, panelIds: seq<string>) {
    |ids| == |panelIds| && forall idx :: 0 <= idx < |ids| ==> PanelIndex(panelIds, ids[idx] + "-p") == Some(idx)
  }

  /** Every panel id is its button's id with "-p" appended, and no two
      panels share an id, so each lookup finds its own panel. */
  lemma {:induction false} PairedByDistinctIds(ids: seq<string>, panelIds: seq<string>)
    requires |ids| == |panelIds|
    requires forall idx :: 0 <= idx < |ids| ==> panelIds[idx] == ids[idx] + "-p"
    requires forall i, j :: 0 <= i < j < |panelIds| ==> panelIds[i] != panelIds[j]
    ensures Paired(ids, panelIds)
  {
    forall idx | 0 <= idx < |ids| ensures PanelIndex(panelIds, ids[idx] + "-p") == Some(idx) {
      assert panelIds[idx] == ids[idx] + "-p";
      PanelIndexFirst(panelIds, ids[idx] + "-p");
    }
  }

  lemma GeneratedIdsPaired(tabs: seq<Tab>, opts: Options)
    ensures Paired(ButtonIds(BuildLayout(tabs, opts)), PanelIds(BuildLayout(tabs, opts)))
    ensures |ButtonIds(BuildLayout(tabs, opts))| >= 1
  {
    var ids, pids := ButtonIds(BuildLayout(tabs, opts)), PanelIds(BuildLayout(tabs, opts));
    GeneratedPanelIds(tabs, opts);
    GeneratedPanelIdsDistinct(tabs, opts);
    PairedByDistinctIds(ids, pids);
  }

  lemma GeneratedPanelIds(tabs: seq<Tab>, opts: Options)
    ensures var ids, pids := ButtonIds(BuildLayout(tabs, opts)), PanelIds(BuildLayout(tabs, opts));
      |ids| == |pids| >= 1 && forall idx :: 0 <= idx < |ids| ==> pids[idx] == ids[idx] + "-p"
  {
  }

  lemma GeneratedPanelIdsDistinct(tabs: seq<Tab>, opts: Options)
    ensures var pids := PanelIds(BuildLayout(tabs, opts));
      forall i, j :: 0 <= i < j < |pids| ==> pids[i] != pids[j]
  {
    var pids := PanelIds(BuildLayout(tabs, opts));
    forall i, j | 0 <= i < j < |pids| ensures pids[i] != pids[j] {
      IdsDistinct(tabs, opts, i, j);
    }
  }

  /** The button attributes and panel flags of n tabs as the markup writes
      them: no button selected, every panel hidden. */
  method Markup(n: nat) returns (attrs: array<TabAttrs>, hidden: array<bool>)
    ensures fresh(attrs) && fresh(hidden)
    ensures attrs[..] == ActiveAttrs(n, -1) && hidden[..] == ActiveHidden(n, -1)
  {
    attrs := new TabAttrs[n](_ => Attrs(false));
    hidden := new bool[n](_ => true);
  }

  /** The tab buttons and panels of a loaded generated document, with the
      cookie and the focused button.  `ids` and `panelIds` are the ids in
      document order (`qsa('[role="tab"]')` and the panels). */
  class TabStrip {
    const ids: seq<string>
    const panelIds: seq<string>
    const remember: bool
    const tabAttrs: array<TabAttrs>
    const panelHidden: array<bool>
    var focused: Option<int>
    var cookie: Option<int>

    ghost predicate Valid()
      reads this
    {
      && Paired(ids, panelIds)
      && |ids| >= 1
      && tabAttrs.Length == |ids| && panelHidden.Length == |ids|
    }

    /** Exactly the selected buttons (aria-selected "true"). */
    function Selected(): seq<bool>
      reads this, tabAttrs
    {
      SelectedOf(tabAttrs[..])
    }

    /** A document with the button ids `buttonIds` and panel ids
        `panelIds`, in document order, before its script runs: every button
        unselected and every panel hidden, as the markup writes them.
        `GeneratedIdsPaired` shows that every generated document meets the
        requirement. */
    constructor (buttonIds: seq<string>, panels: seq<string>, remembered: bool)
      requires Paired(buttonIds, panels) && |buttonIds| >= 1
      ensures Valid() && fresh(tabAttrs) && fresh(panelHidden)
      ensures ids == buttonIds && panelIds == panels && remember == remembered
      ensures tabAttrs[..] == ActiveAttrs(|ids|, -1) && panelHidden[..] == ActiveHidden(|ids|, -1)
      ensures focused == None && cookie == None
    {
      ids, panelIds, remember := buttonIds, panels, remembered;
      var attrs, hidden := Markup(|buttonIds|);
      tabAttrs, panelHidden := attrs, hidden;
      focused, cookie := None, None;
    }

    /** The intended start-up: `activate(start, false)` with the start index
        read from the restored cookie value when remembered and it is the
        index of a tab (`Start`), 0 otherwise. */
    method Boot(restored: JsNumber)
      requires Valid()
      modifies this, tabAttrs, panelHidden
      ensures Valid()
      ensures var k := Start(remember, restored, |ids|);
        && tabAttrs[..] == ActiveAttrs(|ids|, k)
        && panelHidden[..] == ActiveHidden(|ids|, k)
        && focused == old(focused)
        && cookie == (if remember then Some(k) else old(cookie))
    {
      Activate(Start(remember, restored, |ids|), false);
    }

    /** `activate(k, focus)`: button k alone is selected, has tabindex 0 and
        the accent style, panel k alone is shown; the focus moves to button k
        on request, and k is written to the cookie when remembered. */
    method Activate(k: int, focus: bool)
      requires Valid() && 0 <= k < tabAttrs.Length
      modifies this, tabAttrs, panelHidden
      ensures Valid()
      ensures tabAttrs[..] == ActiveAttrs(tabAttrs.Length, k)
      ensures panelHidden[..] == ActiveHidden(panelHidden.Length, k)
      ensures focused == (if focus then Some(k) else old(focused))
      ensures cookie == (if remember then Some(k) else old(cookie))
      ensures CountTrue(Selected()) == 1
    {
      var n := tabAttrs.Length;
      for idx := 0 to n
        modifies tabAttrs, panelHidden
        invariant forall j :: 0 <= j < idx ==> tabAttrs[j] == Attrs(j == k) && panelHidden[j] == (j != k)
      {
        MarkTab(idx, idx == k);
      }
      assert tabAttrs[..] == ActiveAttrs(n, k);
      assert panelHidden[..] == ActiveHidden(n, k);
      if focus {
        focused := Some(k);
      }
      if remember {
        cookie := Some(k);
      }
      ActivatedSelectsOne(n, k);
    }

    /** One step of `activate`'s walk over the buttons: button idx gets the
        attributes and style for `sel`, and the panel its id points to is
        hidden unless `sel`; nothing else changes. */
    method MarkTab(idx: int, sel: bool)
      requires Valid() && 0 <= idx < tabAttrs.Length
      modifies tabAttrs, panelHidden
      ensures tabAttrs[..] == old(tabAttrs[..])[idx := Attrs(sel)]
      ensures panelHidden[..] == old(panelHidden[..])[idx := !sel]
    {
      tabAttrs[idx] := Attrs(sel);
      var p := PanelIndex(panelIds, ids[idx] + "-p");
      assert p == Some(idx);
      if p.Some? {
        panelHidden[p.value] := !sel;
      }
    }

    /** A click on button i. */
    method Click(i: int)
      requires Valid() && 0 <= i < tabAttrs.Length
      modifies this, tabAttrs, panelHidden
      ensures Valid()
      ensures tabAttrs[..] == ActiveAttrs(tabAttrs.Length, i)
      ensures panelHidden[..] == ActiveHidden(panelHidden.Length, i)
      ensures focused == old(focused)
      ensures cookie == (if remember then Some(i) else old(cookie))
    {
      Activate(i, false);
    }

    /** A key pressed on button i: the four navigation keys activate their
        target and focus it; any other key changes nothing. */
    method KeyDown(i: int, key: Key)
      requires Valid() && 0 <= i < tabAttrs.Length
      modifies this, tabAttrs, panelHidden
      ensures Valid()
      ensures key == Other ==>
        && tabAttrs[..] == old(tabAttrs[..]) && panelHidden[..] == old(panelHidden[..])
        && focused == old(focused) && cookie == old(cookie)
      ensures key != Other ==> var k := KeyTarget(i, tabAttrs.Length, key).value;
        && tabAttrs[..] == ActiveAttrs(tabAttrs.Length, k)
        && panelHidden[..] == ActiveHidden(panelHidden.Length, k)
        && focused == Some(k)
        && cookie == (if remember then Some(k) else old(cookie))
    {
      match KeyTarget(i, tabAttrs.Length, key)
      case None =>
      case Some(k) => Activate(k, true);
    }
  }
}
