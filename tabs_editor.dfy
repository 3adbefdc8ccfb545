/** The editor side of the Tabs Generator page (app/tabs/page.tsx): the tab
    list with its mutators, and the page state (tabs, accent colour, the
    "remember last active tab" flag) with the restore of saved state on load. */
module TabsEditor {
  import opened Wrappers
  import opened Text
  import opened TabsGenerator

  /* ---------- the list mutators ---------- */

  /** A `Partial<Tab>`: the fields an edit supplies. */
  datatype TabPatch = TabPatch(title: Option<string>, content: Option<string>)

  /** `{ ...t, ...p }`: the supplied fields win. */
  function Merge(t: Tab, p: TabPatch): Tab
  {
    Tab(p.title.GetOr(t.title), p.content.GetOr(t.content))
  }

  /** Two patches applied one after the other, as a single patch. */
  function Then(p: TabPatch, q: TabPatch): TabPatch
  {
    TabPatch(if q.title.Some? then q.title else p.title, if q.content.Some? then q.content else p.content)
  }

  /** `prev.map((t, idx) => idx === i ? { ...t, ...p } : t)`: the same tabs,
      with tab i alone merged with the patch; an index outside the list
      changes nothing. */
  function Updated(tabs: seq<Tab>, i: int, p: TabPatch): (r: seq<Tab>)
    ensures |r| == |tabs|
    ensures forall j :: 0 <= j < |tabs| && j != i ==> r[j] == tabs[j]
    ensures 0 <= i < |tabs| ==> r[i] == Merge(tabs[i], p)
    ensures !(0 <= i < |tabs|) ==> r == tabs
  {
    if tabs == [] then []
    else [if i == 0 then Merge(tabs[0], p) else tabs[0]] + Updated(tabs[1..], i - 1, p)
  }

  /** Editing a tab twice is editing it once with both patches. */
  lemma UpdatedTwice(tabs: seq<Tab>, i: int, p: TabPatch, q: TabPatch)
    ensures Updated(Updated(tabs, i, p), i, q) == Updated(tabs, i, Then(p, q))
  {
  }

  /** `add`: the list with `{title "Tab n+1", content "Edit me."}` appended,
      or the list itself once it holds MaxTabs tabs. */
  function Added(tabs: seq<Tab>): (r: seq<Tab>)
    ensures |tabs| >= MaxTabs ==> r == tabs
    ensures |tabs| < MaxTabs ==> |r| == |tabs| + 1 && r[..|tabs|] == tabs
    ensures |tabs| < MaxTabs ==> r[|tabs|] == Tab("Tab " + NatText(|r|), "Edit me.")
  {
    if |tabs| >= MaxTabs then tabs else tabs + [Tab("Tab " + NatText(|tabs| + 1), "Edit me.")]
  }

  /** `prev.filter((_, idx) => idx !== i)`, scanning from position `from`:
      drops the tab at index i. */
  function FilterIndex(tabs: seq<Tab>, i: int, from: nat): (r: seq<Tab>)
    ensures from <= i < from + |tabs| ==> r == tabs[..i - from] + tabs[i - from + 1..]
    ensures !(from <= i < from + |tabs|) ==> r == tabs
  {
    if tabs == [] then []
    else if from == i then FilterIndex(tabs[1..], i, from + 1)
    else
      var rest := FilterIndex(tabs[1..], i, from + 1);
      assert from <= i < from + |tabs| ==> tabs[1..][..i - from - 1] == tabs[1..i - from];
      [tabs[0]] + rest
  }

  /** `remove(i)`: exactly the tab at index i is gone and the others keep
      their order; an index outside the list changes nothing. */
  function Removed(tabs: seq<Tab>, i: int): (r: seq<Tab>)
    ensures 0 <= i < |tabs| ==> r == tabs[..i] + tabs[i + 1..] && |r| == |tabs| - 1
    ensures !(0 <= i < |tabs|) ==> r == tabs
  {
    FilterIndex(tabs, i, 0)
  }

  /** Removing the tab `add` just appended gives the list back. */
  lemma RemoveUndoesAdd(tabs: seq<Tab>)
    requires |tabs| < MaxTabs
    ensures Removed(Added(tabs), |tabs|) == tabs
  {
    var a := Added(tabs);
    assert a[..|tabs|] == tabs;
    assert a[|tabs| + 1..] == [];
  }

  /** The `resetStarter` tabs, also the initial list. */
  const StarterTabs: seq<Tab> := [
    Tab("Overview", "Welcome to the unit."),
    Tab("Resources", "Links and readings."),
    Tab("Assessments", "All due dates here.")
  ]

  /** At most MaxTabs of a list, in order: `list.slice(0, MAX_TABS)`. */
  function Truncated(tabs: seq<Tab>): (r: seq<Tab>)
    ensures |r| == Min(|tabs|, MaxTabs) && r == tabs[..|r|]
  {
    tabs[..Min(|tabs|, MaxTabs)]
  }

  /* ---------- the page state and its restore on load ---------- */

  datatype EditorState = EditorState(tabs: seq<Tab>, accent: string, remember: bool)

  /** The stored `tabs` field as the load effect sees it.  `NoTabs`: absent,
      or a value whose `length` is falsy (null, a number, a boolean, "").
      `TabList`: an array of tabs.  `NoSlice`: a value with a truthy `length`
      but no `slice` method (an object such as `{"length": 1}`), on which
      `saved.tabs.slice` throws. */
  datatype StoredTabs = NoTabs | TabList(list: seq<Tab>) | NoSlice

  /** The parsed saved record.  `accent` and `remember` are `None` when absent
      or not a string and a boolean respectively. */
  datatype Saved = Saved(tabs: StoredTabs, accent: Option<string>, remember: Option<bool>)

  /** What `JSON.stringify({ tabs, accent, remember })` stores, read back. */
  function Snapshot(st: EditorState): Saved
  {
    Saved(TabList(st.tabs), Some(st.accent), Some(st.remember))
  }

  /** The load effect: with nothing stored, or what is stored failing to
      parse (`saved` is None), the state is kept.  A `tabs` value whose
      `slice` throws ends the effect before the accent and the flag are
      read, and the empty `catch` keeps the whole state.  Otherwise the tabs
      are replaced only by a non-empty saved list, truncated to MaxTabs, and
      the accent and flag only by a value of the right type. */
  function Restore(st: EditorState, saved: Option<Saved>): (r: EditorState)
    ensures saved.None? ==> r == st
    ensures saved.Some? && saved.value.tabs.NoSlice? ==> r == st
    ensures saved.Some? && saved.value.tabs.TabList? && saved.value.tabs.list != [] ==>
      r.tabs == Truncated(saved.value.tabs.list)
    ensures saved.Some? && (saved.value.tabs.NoTabs? || saved.value.tabs == TabList([])) ==> r.tabs == st.tabs
    ensures saved.Some? && !saved.value.tabs.NoSlice? && saved.value.accent.Some? ==>
      r.accent == saved.value.accent.value
    ensures saved.Some? && (saved.value.tabs.NoSlice? || saved.value.accent.None?) ==> r.accent == st.accent
    ensures saved.Some? && !saved.value.tabs.NoSlice? && saved.value.remember.Some? ==>
      r.remember == saved.value.remember.value
    ensures saved.Some? && (saved.value.tabs.NoSlice? || saved.value.remember.None?) ==> r.remember == st.remember
  {
    match saved
    case None => st
    case Some(s) =>
      if s.tabs.NoSlice? then st
      else
        var tabs := if s.tabs.TabList? && |s.tabs.list| > 0 then Truncated(s.tabs.list) else st.tabs;
        EditorState(tabs, s.accent.GetOr(st.accent), s.remember.GetOr(st.remember))
  }

  /** Whatever was stored, restoring keeps the tab list within MaxTabs. */
  lemma RestoreKeepsBound(st: EditorState, saved: Option<Saved>)
    requires |st.tabs| <= MaxTabs
    ensures |Restore(st, saved).tabs| <= MaxTabs
  {
  }

  /** Saving a state with 1 to MaxTabs tabs and loading it back gives that
      state, whatever the page held before. */
  lemma SaveThenRestore(before: EditorState, st: EditorState)
    requires 1 <= |st.tabs| <= MaxTabs
    ensures Restore(before, Some(Snapshot(st))) == st
  {
    assert Truncated(st.tabs) == st.tabs;
  }

  /** A saved state whose tab list is empty restores the accent and the flag
      but not the list: the page keeps the tabs it had. */
  lemma EmptySavedListNotRestored(before: EditorState, st: EditorState)
    requires st.tabs == []
    ensures Restore(before, Some(Snapshot(st))) == EditorState(before.tabs, st.accent, st.remember)
  {
  }

  /** A stored `{"tabs": {"length": 1}, "accent": "#fff"}` throws at the
      `slice` call, so the accent is not restored either. */
  lemma UnsliceableTabsKeepAccent(st: EditorState)
    requires st.accent != "#fff"
    ensures Restore(st, Some(Saved(NoSlice, Some("#fff"), None))).accent != "#fff"
  {
  }

  /** A preview of n tabs shows the clamped count of buttons and panels,
      numbered from 1. */
  lemma PreviewShowsPreset(n: int, opts: Options)
    ensures |BuildLayout(Preset(n), opts).buttons| == TabCount(n)
    ensures forall i :: 0 <= i < TabCount(n) ==>
      BuildLayout(Preset(n), opts).buttons[i].caption == Esc("Tab " + NatText(i + 1))
  {
  }

  /** The page component's state.  The tab list never holds more than
      MaxTabs tabs. */
  class Editor {
    var tabs: seq<Tab>
    var accent: string
    var remember: bool

    ghost predicate Valid()
      reads this
    {
      |tabs| <= MaxTabs
    }

    function State(): EditorState
      reads this
    {
      EditorState(tabs, accent, remember)
    }

    /** The document the page shows, copies and downloads: it holds every
        shown tab's escaped title and content, and the cookie write and read
        when the active tab is remembered. */
    function Html(): (html: string)
      reads this
      ensures ShowsEveryTab(html, tabs)
      ensures remember ==> WritesCookie(html)
    {
      BuildWritesCookie(tabs, Options(accent, remember));
      Build(tabs, Options(accent, remember))
    }

    /** The 1, 3 and 5 tab previews: a preset built with the current
        options, so the remember flag reaches them too. */
    function Preview(n: int): (html: string)
      reads this
      ensures ShowsEveryTab(html, Preset(n))
      ensures remember ==> WritesCookie(html)
    {
      BuildWritesCookie(Preset(n), Options(accent, remember));
      Build(Preset(n), Options(accent, remember))
    }

    /** The initial state: the three starter tabs, the default accent, and
        the active tab remembered. */
    constructor ()
      ensures Valid()
      ensures tabs == StarterTabs && accent == DefaultAccent && remember
    {
      tabs := StarterTabs;
      accent := DefaultAccent;
      remember := true;
    }

    /** The load effect on mount. */
    method Load(saved: Option<Saved>)
      requires Valid()
      modifies this
      ensures Valid()
      ensures State() == Restore(old(State()), saved)
    {
      var st := Restore(State(), saved);
      RestoreKeepsBound(State(), saved);
      tabs, accent, remember := st.tabs, st.accent, st.remember;
    }

    method Update(i: int, p: TabPatch)
      requires Valid()
      modifies this
      ensures Valid()
      ensures tabs == Updated(old(tabs), i, p)
      ensures accent == old(accent) && remember == old(remember)
    {
      tabs := Updated(tabs, i, p);
    }

    method Add()
      requires Valid()
      modifies this
      ensures Valid()
      ensures tabs == Added(old(tabs))
      ensures accent == old(accent) && remember == old(remember)
    {
      tabs := Added(tabs);
    }

    method Remove(i: int)
      requires Valid()
      modifies this
      ensures Valid()
      ensures tabs == Removed(old(tabs), i)
      ensures accent == old(accent) && remember == old(remember)
    {
      tabs := Removed(tabs, i);
    }

    /** The quick presets: `n` numbered tabs, clamped to 1..MaxTabs. */
    method SetCount(n: int)
      requires Valid()
      modifies this
      ensures Valid()
      ensures tabs == Preset(n)
      ensures accent == old(accent) && remember == old(remember)
    {
      tabs := Preset(n);
    }

    /** "Load ALL Examples": the example bundle, truncated to MaxTabs. */
    method LoadExamples(examples: seq<Tab>)
      requires Valid()
      modifies this
      ensures Valid()
      ensures tabs == Truncated(examples)
      ensures accent == old(accent) && remember == old(remember)
    {
      tabs := Truncated(examples);
    }

    method ResetStarter()
      requires Valid()
      modifies this
      ensures Valid()
      ensures tabs == StarterTabs
      ensures accent == old(accent) && remember == old(remember)
    {
      tabs := StarterTabs;
    }

    method SetAccent(a: string)
      requires Valid()
      modifies this
      ensures Valid()
      ensures accent == a && tabs == old(tabs) && remember == old(remember)
    {
      accent := a;
    }

    method SetRemember(b: bool)
      requires Valid()
      modifies this
      ensures Valid()
      ensures remember == b && tabs == old(tabs) && accent == old(accent)
    {
      remember := b;
    }
  }
}
