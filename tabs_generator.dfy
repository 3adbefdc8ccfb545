/** The Tabs Generator of app/tabs/page.tsx, as a pure serialiser.  `Build`
    turns a list of (title, content) records and the two options into one
    self-contained HTML document.  It is modelled in two layers: `Layout` gives
    the structured list of tab buttons and tab panels the document holds, and
    `Render` writes that layout out with the fixed template text. */
module TabsGenerator {
  import opened Text

  datatype Tab = Tab(title: string, content: string)
  datatype Options = Options(accent: string, remember: bool)

  /** The largest number of tabs the editor keeps and the generator emits. */
  const MaxTabs: nat := 15
  const DefaultAccent: string := "#64748b"
  /** What the generator shows in place of an empty tab list. */
  const PlaceholderTab: Tab := Tab("Tab 1", "Edit me.")

  function Min(a: int, b: int): int { if a <= b then a else b }
  function Max(a: int, b: int): int { if a >= b then a else b }

  /* ---------- esc ---------- */

  /** `s.replace(/c/g, rep)`: every occurrence of `c`, left to right, replaced by `rep`. */
  function ReplaceAll(s: string, c: char, rep: string): string
  {
    if s == [] then [] else (if s[0] == c then rep else [s[0]]) + ReplaceAll(s[1..], c, rep)
  }

  /** The HTML text of one character: the three characters `esc` deals with
      become entities, everything else stands for itself. */
  function Entity(c: char): string
  {
    if c == '&' then "&amp;" else if c == '<' then "&lt;" else if c == '>' then "&gt;" else [c]
  }

  /** A single left-to-right pass that writes each character as its entity:
      the reference `esc` is meant to be. */
  function EscapeEach(s: string): string
  {
    if s == [] then [] else Entity(s[0]) + EscapeEach(s[1..])
  }

  /** `esc(s)`: three chained global replaces, `&` first.  It equals the single
      pass, so no entity introduced by one replace is escaped again by a later
      one, and the result holds no angle bracket. */
  function Esc(s: string): (r: string)
    ensures r == EscapeEach(s)
    ensures forall k :: 0 <= k < |r| ==> r[k] != '<' && r[k] != '>'
  {
    ChainedReplacesAreOnePass(s);
    EscapeEachHasNoBrackets(s);
    ReplaceAll(ReplaceAll(ReplaceAll(s, '&', "&amp;"), '<', "&lt;"), '>', "&gt;")
  }

  lemma {:induction false} ReplaceAllConcat(a: string, b: string, c: char, rep: string)
    ensures ReplaceAll(a + b, c, rep) == ReplaceAll(a, c, rep) + ReplaceAll(b, c, rep)
  {
    if a == [] {
      assert a + b == b;
    } else {
      assert (a + b)[0] == a[0];
      assert (a + b)[1..] == a[1..] + b;
      ReplaceAllConcat(a[1..], b, c, rep);
      var x := if a[0] == c then rep else [a[0]];
      calc {
        ReplaceAll(a + b, c, rep);
        x + ReplaceAll(a[1..] + b, c, rep);
        x + (ReplaceAll(a[1..], c, rep) + ReplaceAll(b, c, rep));
        (x + ReplaceAll(a[1..], c, rep)) + ReplaceAll(b, c, rep);
        ReplaceAll(a, c, rep) + ReplaceAll(b, c, rep);
      }
    }
  }

  lemma {:induction false} ChainedReplacesAreOnePass(s: string)
    ensures ReplaceAll(ReplaceAll(ReplaceAll(s, '&', "&amp;"), '<', "&lt;"), '>', "&gt;") == EscapeEach(s)
  {
    if s != [] {
      var c, t := s[0], s[1..];
      assert s == [c] + t;
      var a1, b1 := ReplaceAll([c], '&', "&amp;"), ReplaceAll(t, '&', "&amp;");
      ReplaceAllConcat([c], t, '&', "&amp;");
      var a2, b2 := ReplaceAll(a1, '<', "&lt;"), ReplaceAll(b1, '<', "&lt;");
      ReplaceAllConcat(a1, b1, '<', "&lt;");
      ReplaceAllConcat(a2, b2, '>', "&gt;");
      ChainedReplacesAreOnePass(t);
      EntityByReplaces(c);
    }
  }

  lemma ReplaceAllSingle(c: char, d: char, rep: string)
    ensures ReplaceAll([c], d, rep) == if c == d then rep else [c]
  {
    assert [c][1..] == [];
    var x := if c == d then rep else [c];
    assert ReplaceAll([c], d, rep) == x + ReplaceAll([], d, rep);
    assert x + [] == x;
  }

  /** On one character the three replaces give its entity. */
  lemma EntityByReplaces(c: char)
    ensures ReplaceAll(ReplaceAll(ReplaceAll([c], '&', "&amp;"), '<', "&lt;"), '>', "&gt;") == Entity(c)
  {
    ReplaceAllSingle(c, '&', "&amp;");
    if c == '&' {
      var amp := "&amp;";
      assert '<' !in amp && '>' !in amp;
      ReplaceAllAbsent(amp, '<', "&lt;");
      ReplaceAllAbsent(amp, '>', "&gt;");
    } else if c == '<' {
      ReplaceAllSingle(c, '<', "&lt;");
      var lt := "&lt;";
      assert '>' !in lt;
      ReplaceAllAbsent(lt, '>', "&gt;");
    } else {
      ReplaceAllSingle(c, '<', "&lt;");
      ReplaceAllSingle(c, '>', "&gt;");
    }
  }

  lemma {:induction false} ReplaceAllAbsent(s: string, c: char, rep: string)
    requires c !in s
    ensures ReplaceAll(s, c, rep) == s
  {
    if s != [] {
      assert s[0] != c && c !in s[1..];
      ReplaceAllAbsent(s[1..], c, rep);
    }
  }

  lemma {:induction false} EscapeEachHasNoBrackets(s: string)
    ensures forall k :: 0 <= k < |EscapeEach(s)| ==> EscapeEach(s)[k] != '<' && EscapeEach(s)[k] != '>'
  {
    if s != [] {
      EscapeEachHasNoBrackets(s[1..]);
      var e, rest := Entity(s[0]), EscapeEach(s[1..]);
      forall k | 0 <= k < |e + rest| ensures (e + rest)[k] != '<' && (e + rest)[k] != '>' {
        if k >= |e| { assert (e + rest)[k] == rest[k - |e|]; }
      }
    }
  }

  /** What a browser's HTML parser reads back from escaped text: `&lt;`,
      `&gt;` and `&amp;` stand for `<`, `>` and `&`. */
  function Unescape(s: string): string
    decreases |s|
  {
    if |s| >= 4 && s[..4] == "&lt;" then "<" + Unescape(s[4..])
    else if |s| >= 4 && s[..4] == "&gt;" then ">" + Unescape(s[4..])
    else if |s| >= 5 && s[..5] == "&amp;" then "&" + Unescape(s[5..])
    else if s == [] then []
    else [s[0]] + Unescape(s[1..])
  }

  /** An escaped title reads back as the title itself. */
  lemma {:induction false} UnescapeEsc(s: string)
    ensures Unescape(Esc(s)) == s
  {
    UnescapeEscapeEach(s);
  }

  lemma {:induction false} UnescapeEscapeEach(s: string)
    ensures Unescape(EscapeEach(s)) == s
  {
    if s != [] {
      var c, t := s[0], s[1..];
      var x := Entity(c) + EscapeEach(t);
      UnescapeEscapeEach(t);
      if c == '<' {
        assert x[..4] == "&lt;" && x[4..] == EscapeEach(t);
      } else if c == '>' {
        assert x[..4] == "&gt;" && x[4..] == EscapeEach(t);
      } else if c == '&' {
        assert x[..4] != "&lt;" by { assert x[1] == 'a'; }
        assert x[..4] != "&gt;" by { assert x[1] == 'a'; }
        assert x[..5] == "&amp;" && x[5..] == EscapeEach(t);
      } else {
        assert x[0] == c && x[1..] == EscapeEach(t);
        assert |x| >= 4 ==> x[..4][0] != '&';
        assert |x| >= 5 ==> x[..5][0] != '&';
      }
    }
  }

  /** A title without `&`, `<` or `>` is written out unchanged. */
  lemma {:induction false} EscIdentity(s: string)
    requires forall k :: 0 <= k < |s| ==> s[k] != '&' && s[k] != '<' && s[k] != '>'
    ensures Esc(s) == s
  {
    EscapeEachIdentity(s);
  }

  lemma {:induction false} EscapeEachIdentity(s: string)
    requires forall k :: 0 <= k < |s| ==> s[k] != '&' && s[k] != '<' && s[k] != '>'
    ensures EscapeEach(s) == s
  {
    if s != [] {
      EscapeEachIdentity(s[1..]);
    }
  }

  /* ---------- preset / setCount ---------- */

  /** `Math.min(Math.max(n, 1), MAX_TABS)`. */
  function TabCount(n: int): (k: nat)
    ensures 1 <= k <= MaxTabs
    ensures 1 <= n <= MaxTabs ==> k == n
    ensures n < 1 ==> k == 1
    ensures n > MaxTabs ==> k == MaxTabs
  {
    Min(Max(n, 1), MaxTabs)
  }

  /** The k-th numbered tab a preset creates (k counts from 1). */
  function NumberedTab(k: nat): Tab
  {
    Tab("Tab " + NatText(k), "This is content for Tab " + NatText(k) + ".")
  }

  /** `preset(n)`, also what `setCount(n)` stores: the clamped number of tabs,
      numbered from 1 in order. */
  function Preset(n: int): (r: seq<Tab>)
    ensures |r| == TabCount(n)
    ensures forall i :: 0 <= i < |r| ==> r[i].title == "Tab " + NatText(i + 1)
    ensures forall i :: 0 <= i < |r| ==> r[i].content == "This is content for Tab " + NatText(i + 1) + "."
  {
    seq(TabCount(n), i requires 0 <= i => NumberedTab(i + 1))
  }

  /** No two preset tabs share a title. */
  lemma PresetTitlesDistinct(n: int, i: nat, j: nat)
    requires i < j < |Preset(n)|
    ensures Preset(n)[i].title != Preset(n)[j].title
  {
    var p := Preset(n);
    if p[i].title == p[j].title {
      assert NatText(i + 1) == p[i].title[4..] == p[j].title[4..] == NatText(j + 1);
      NatTextInjective(i + 1, j + 1);
    }
  }

  /* ---------- build, layer 1: the structure ---------- */

  datatype Button = Button(id: string, controls: string, caption: string)
  datatype Panel = Panel(id: string, labelledBy: string, body: string)
  datatype Layout = Layout(accent: string, remember: bool, buttons: seq<Button>, panels: seq<Panel>)

  /** `t-${i}`, the id of button i. */
  function TabId(i: nat): string { "t-" + NatText(i) }
  /** `t-${i}-p`, the id of panel i. */
  function PanelId(i: nat): string { TabId(i) + "-p" }

  /** `safe`: at most MaxTabs of the given tabs, or the placeholder when
      there are none. */
  function Shown(tabs: seq<Tab>): (r: seq<Tab>)
    ensures 1 <= |r| <= MaxTabs
    ensures |r| == Max(1, Min(|tabs|, MaxTabs))
    ensures tabs == [] ==> r == [PlaceholderTab]
    ensures tabs != [] ==> r == tabs[..|r|]
  {
    if |tabs| > 0 then tabs[..Min(|tabs|, MaxTabs)] else [PlaceholderTab]
  }

  function ButtonFor(t: Tab, i: nat): Button { Button(TabId(i), PanelId(i), Esc(t.title)) }
  function PanelFor(t: Tab, i: nat): Panel { Panel(PanelId(i), TabId(i), t.content) }

  /** The tab buttons and panels of `build(tabs, opts)`.  There are as many
      panels as buttons, max(1, min(|tabs|, 15)) of each; button i and panel i
      come from the i-th tab and point at each other; the label is the escaped
      title and the body the content as given; the accent falls back to the
      default when empty. */
  function BuildLayout(tabs: seq<Tab>, opts: Options): (d: Layout)
    ensures |d.buttons| == |d.panels| == Max(1, Min(|tabs|, MaxTabs))
    ensures d.accent == (if opts.accent == "" then DefaultAccent else opts.accent)
    ensures d.remember == opts.remember
    ensures forall i :: 0 <= i < |d.buttons| ==>
      && d.buttons[i].id == TabId(i) && d.panels[i].id == PanelId(i)
      && d.buttons[i].controls == d.panels[i].id && d.panels[i].labelledBy == d.buttons[i].id
    ensures tabs != [] ==> forall i :: 0 <= i < |d.buttons| ==>
      d.buttons[i].caption == Esc(tabs[i].title) && d.panels[i].body == tabs[i].content
    ensures tabs == [] ==> d.buttons[0].caption == Esc("Tab 1") && d.panels[0].body == "Edit me."
  {
    var safe := Shown(tabs);
    Layout(if opts.accent == "" then DefaultAccent else opts.accent,
           opts.remember,
           seq(|safe|, i requires 0 <= i < |safe| => ButtonFor(safe[i], i)),
           seq(|safe|, i requires 0 <= i < |safe| => PanelFor(safe[i], i)))
  }

  /** The generated ids are all different: no two buttons share an id, no two
      panels share one, and no button shares one with a panel. */
  lemma IdsDistinct(tabs: seq<Tab>, opts: Options, i: nat, j: nat)
    requires i < |Shown(tabs)| && j < |Shown(tabs)|
    ensures BuildLayout(tabs, opts).buttons[i].id != BuildLayout(tabs, opts).panels[j].id
    ensures i != j ==> BuildLayout(tabs, opts).buttons[i].id != BuildLayout(tabs, opts).buttons[j].id
    ensures i != j ==> BuildLayout(tabs, opts).panels[i].id != BuildLayout(tabs, opts).panels[j].id
  {
    var d := BuildLayout(tabs, opts);
    var bi, pj := d.buttons[i].id, d.panels[j].id;
    assert bi[|bi| - 1] != pj[|pj| - 1];
    if i != j {
      TabIdInjective(i, j);
      assert d.panels[i].id[..|d.panels[i].id| - 2] == TabId(i);
      assert d.panels[j].id[..|d.panels[j].id| - 2] == TabId(j);
    }
  }

  lemma TabIdInjective(i: nat, j: nat)
    requires i != j
    ensures TabId(i) != TabId(j)
  {
    if TabId(i) == TabId(j) {
      assert NatText(i) == TabId(i)[2..] == TabId(j)[2..] == NatText(j);
      NatTextInjective(i, j);
    }
  }

  /** An empty tab list still gives a one-tab document: the placeholder. */
  lemma EmptyTabsGivePlaceholder(opts: Options)
    ensures BuildLayout([], opts).buttons == [Button("t-0", "t-0-p", "Tab 1")]
    ensures BuildLayout([], opts).panels == [Panel("t-0-p", "t-0", "Edit me.")]
  {
    PlaceholderLayout(opts);
    FirstIds();
    PlaceholderTitleUnchanged();
  }

  lemma PlaceholderLayout(opts: Options)
    ensures BuildLayout([], opts).buttons == [ButtonFor(PlaceholderTab, 0)]
    ensures BuildLayout([], opts).panels == [PanelFor(PlaceholderTab, 0)]
  {
    assert Shown([]) == [PlaceholderTab];
  }

  lemma FirstIds()
    ensures TabId(0) == "t-0" && PanelId(0) == "t-0-p"
  {
    assert NatText(0) == "0";
  }

  lemma PlaceholderTitleUnchanged()
    ensures Esc("Tab 1") == "Tab 1"
  {
    var title := "Tab 1";
    assert forall k :: 0 <= k < |title| ==> title[k] != '&' && title[k] != '<' && title[k] != '>';
    EscIdentity(title);
  }

  /* ---------- build, layer 2: the text ---------- */

  // The fixed text of the document template, in order.  `${accent}` goes
  // between DocumentHead and TablistOpen, the buttons between TablistOpen and
  // TablistClose, the panels after TablistClose, and the two cookie snippets
  // into the two slots of the script.
  const HeadMeta: string := "<!doctype html><html lang=\"en\"><meta charset=\"utf-8\"><meta name=\"viewport\" content=\"width=device-width,initial-scale=1\">\n"
  const HeadTitle: string := "<title>Tabs</title>\n"
  const HeadStyle: string := "<body style=\"margin:20px;background:#0e1116;color:#e5e7eb;font:16px/1.5 system-ui,Segoe UI,Roboto,Helvetica,Arial\">\n"
  const HeadTablist1: string := "  <h1 style=\"font:700 20px system-ui;margin:0 0 10px 0;color:#e5e7eb\">Tabs</h1>\n"
  const HeadTablist2: string := "  <div role=\"tablist\" aria-label=\"Tabs\" style=\"display:flex;flex-wrap:wrap;align-items:center;gap:6px;--accent:"
  const HeadTablist: string := HeadTablist1 + HeadTablist2
  const DocumentHead: string := HeadMeta + HeadTitle + HeadStyle + HeadTablist
  const TablistOpen: string := "\">\n    "
  const TablistClose: string := "\n  </div>\n  "
  const ScriptQuery1: string := "\n<script>(function(){\n  // Query helpers\n"
  const ScriptQuery2: string := "  function qsa(s,r){return Array.prototype.slice.call((r||document).querySelectorAll(s));}\n"
  const ScriptQuery3: string := "  // Simple cookie utils\n"
  const ScriptQuery: string := ScriptQuery1 + ScriptQuery2 + ScriptQuery3
  const ScriptSetCookie: string := "  function setCookie(n,v,d){var t=new Date;t.setTime(t.getTime()+864e5*d);document.cookie=n+'='+encodeURIComponent(v)+';expires='+t.toUTCString()+';path=/'}\n"
  const ScriptGetCookie: string := "  function getCookie(n){var m=document.cookie.match(new RegExp('(?:^|; )'+n+'=([^;]*)'));return m?decodeURIComponent(m[1]):null}\n\n"
  const ScriptElements1: string := "  var tabs=qsa('[role=\"tab\"]'), panels=qsa('[role=\"tabpanel\"]');\n\n"
  const ScriptElements2: string := "  // Visual state for a tab button (selected vs not)\n"
  const ScriptElements3: string := "  function styleTab(el, selected){\n"
  const ScriptElements: string := ScriptElements1 + ScriptElements2 + ScriptElements3
  const ScriptStyleSelected1: string := "    if(selected){\n      el.style.backgroundColor='var(--accent)';\n"
  const ScriptStyleSelected2: string := "      el.style.color='#ffffff';\n"
  const ScriptStyleSelected3: string := "      el.style.borderColor='var(--accent)';\n    }else{\n"
  const ScriptStyleSelected: string := ScriptStyleSelected1 + ScriptStyleSelected2 + ScriptStyleSelected3
  const ScriptStylePlain1: string := "      el.style.backgroundColor='rgba(148,163,184,0.12)';\n"
  const ScriptStylePlain2: string := "      el.style.color='#e5e7eb';\n"
  const ScriptStylePlain3: string := "      el.style.borderColor='#334155';\n    }\n  }\n\n"
  const ScriptStylePlain4: string := "  // Activate a tab by index\n"
  const ScriptStylePlain: string := ScriptStylePlain1 + ScriptStylePlain2 + ScriptStylePlain3 + ScriptStylePlain4
  const ScriptActivateHead1: string := "  function activate(i, focus){\n"
  const ScriptActivateHead2: string := "    tabs.forEach(function(t,idx){\n"
  const ScriptActivateHead3: string := "      var sel = idx===i;\n"
  const ScriptActivateHead4: string := "      t.setAttribute('aria-selected', sel?'true':'false');\n"
  const ScriptActivateHead5: string := "      t.setAttribute('tabindex', sel?'0':'-1');\n"
  const ScriptActivateHead: string := ScriptActivateHead1 + ScriptActivateHead2 + ScriptActivateHead3 + ScriptActivateHead4 + ScriptActivateHead5
  const ScriptActivateTail1: string := "      styleTab(t, sel);\n      var p=document.getElementById(t.id+'-p');\n"
  const ScriptActivateTail2: string := "      if(p) p.hidden=!sel;\n    });\n"
  const ScriptActivateTail3: string := "    if(focus) tabs[i].focus();\n  "
  const ScriptActivateTail: string := ScriptActivateTail1 + ScriptActivateTail2 + ScriptActivateTail3
  const ScriptUntilWrite: string := ScriptQuery + ScriptSetCookie + ScriptGetCookie + ScriptElements + ScriptStyleSelected + ScriptStylePlain + ScriptActivateHead + ScriptActivateTail
  const ScriptUntilRead: string := "\n  }\n\n  // Initial selection (optionally from cookie)\n  var start=0;\n  "
  const ScriptBindClick1: string := "\n  activate(start,false);\n\n"
  const ScriptBindClick2: string := "  // Mouse + keyboard bindings\n"
  const ScriptBindClick3: string := "  tabs.forEach(function(t,i){\n"
  const ScriptBindClick4: string := "    t.addEventListener('click', function(){ activate(i,false); });\n"
  const ScriptBindClick: string := ScriptBindClick1 + ScriptBindClick2 + ScriptBindClick3 + ScriptBindClick4
  const ScriptBindKeyTest1: string := "    t.addEventListener('keydown', function(e){\n"
  const ScriptBindKeyTest2: string := "      var k=e.key; if(['ArrowLeft','ArrowRight','Home','End'].indexOf(k)===-1) return;\n"
  const ScriptBindKeyTest3: string := "      e.preventDefault();\n"
  const ScriptBindKeyTest: string := ScriptBindKeyTest1 + ScriptBindKeyTest2 + ScriptBindKeyTest3
  const ScriptBindKeyMove1: string := "      var idx=i; if(k==='ArrowLeft') idx=(i-1+tabs.length)%tabs.length;\n"
  const ScriptBindKeyMove2: string := "      if(k==='ArrowRight') idx=(i+1)%tabs.length; if(k==='Home') idx=0; if(k==='End') idx=tabs.length-1;\n"
  const ScriptBindKeyMove: string := ScriptBindKeyMove1 + ScriptBindKeyMove2
  const ScriptEnd: string := "      activate(idx,true);\n    });\n  });\n})();</script>\n</body></html>"
  const ScriptRest: string := ScriptBindClick + ScriptBindKeyTest + ScriptBindKeyMove + ScriptEnd
  const ButtonStyle1: string := "border:1px solid #334155;background:rgba(148,163,184,0.12);padding:10px 14px;margin:0 6px;border-radius:12px;"
  const ButtonStyle2: string := "cursor:pointer;font:600 14px system-ui,Segoe UI,Roboto,Helvetica,Arial;color:#e5e7eb;outline-offset:3px;"
  const ButtonStyle: string := ButtonStyle1 + ButtonStyle2
  const PanelStyle1: string := "padding:14px;border:1px solid #e5e7eb;border-radius:14px;margin-top:10px;"
  const PanelStyle2: string := "font:14px/1.6 system-ui,Segoe UI,Roboto,Helvetica,Arial;color:#111;background:#fff;"
  const PanelStyle: string := PanelStyle1 + PanelStyle2

  /** Written into `activate` when the active tab is remembered. */
  const CookieWrite: string := "setCookie('last_active_tab_index', String(i), 90);"
  /** Written before the initial `activate(start,false)` when the active tab is remembered. */
  const CookieRead: string := "var sv=Number(getCookie('last_active_tab_index')); if(!isNaN(sv)&&sv>=0&&sv<tabs.length) start=sv;"

  /** One button's markup; its caption is written into it as it is. */
  function RenderButton(b: Button): (r: string)
    ensures Includes(r, b.caption)
  {
    var open := "<button type=\"button\" role=\"tab\" id=\"" + b.id + "\" aria-controls=\"" + b.controls +
      "\" aria-selected=\"false\" tabindex=\"-1\"\nstyle=\"" + ButtonStyle + "\">";
    IncludesMiddle(open, b.caption, "</button>");
    open + b.caption + "</button>"
  }

  /** One panel's markup; its body is written into it as it is. */
  function RenderPanel(p: Panel): (r: string)
    ensures Includes(r, p.body)
  {
    var open := "<div role=\"tabpanel\" id=\"" + p.id + "\" aria-labelledby=\"" + p.labelledBy +
      "\" hidden\nstyle=\"" + PanelStyle + "\">";
    IncludesMiddle(open, p.body, "</div>");
    open + p.body + "</div>"
  }

  /** `btns`: the buttons mapped to markup and joined with "". */
  function ButtonsHtml(bs: seq<Button>): string
  {
    Join(Mapped(bs, RenderButton))
  }

  /** `panels`: the panels mapped to markup and joined with "". */
  function PanelsHtml(ps: seq<Panel>): string
  {
    Join(Mapped(ps, RenderPanel))
  }

  /** A piece of the embedded script: fixed text, or one of the two cookie
      snippets. */
  datatype Piece = Fixed(text: string) | WriteSnippet | ReadSnippet

  function PieceText(p: Piece): string
  {
    match p
    case Fixed(t) => t
    case WriteSnippet => CookieWrite
    case ReadSnippet => CookieRead
  }

  /** The embedded script as a template: the cookie write in `activate` and
      the cookie read before the first activation are there exactly when the
      active tab is remembered, and the fixed text is the same either way. */
  function ScriptPieces(remember: bool): (r: seq<Piece>)
    ensures WriteSnippet in r <==> remember
    ensures ReadSnippet in r <==> remember
    ensures forall t :: Fixed(t) in r <==> t in [ScriptUntilWrite, ScriptUntilRead, ScriptRest]
  {
    [Fixed(ScriptUntilWrite)] + (if remember then [WriteSnippet] else []) +
    [Fixed(ScriptUntilRead)] + (if remember then [ReadSnippet] else []) + [Fixed(ScriptRest)]
  }

  /** The script text: the fixed text with the cookie write and the cookie
      read in their slots when the active tab is remembered, and the fixed
      text alone otherwise. */
  function ScriptText(remember: bool): (r: string)
    ensures remember ==> r == ScriptUntilWrite + (CookieWrite + (ScriptUntilRead + (CookieRead + ScriptRest)))
    ensures !remember ==> r == ScriptUntilWrite + (ScriptUntilRead + ScriptRest)
  {
    PiecesJoined(remember);
    Join(Mapped(ScriptPieces(remember), PieceText))
  }

  lemma PiecesJoined(remember: bool)
    ensures remember ==>
      Join(Mapped(ScriptPieces(remember), PieceText)) ==
      ScriptUntilWrite + (CookieWrite + (ScriptUntilRead + (CookieRead + ScriptRest)))
    ensures !remember ==>
      Join(Mapped(ScriptPieces(remember), PieceText)) == ScriptUntilWrite + (ScriptUntilRead + ScriptRest)
  {
    var m := Mapped(ScriptPieces(remember), PieceText);
    if remember {
      assert ScriptPieces(true) == [Fixed(ScriptUntilWrite), WriteSnippet, Fixed(ScriptUntilRead), ReadSnippet, Fixed(ScriptRest)];
      assert m == [ScriptUntilWrite, CookieWrite, ScriptUntilRead, CookieRead, ScriptRest];
      JoinFive(ScriptUntilWrite, CookieWrite, ScriptUntilRead, CookieRead, ScriptRest);
    } else {
      assert ScriptPieces(false) == [Fixed(ScriptUntilWrite), Fixed(ScriptUntilRead), Fixed(ScriptRest)];
      assert m == [ScriptUntilWrite, ScriptUntilRead, ScriptRest];
      JoinThree(ScriptUntilWrite, ScriptUntilRead, ScriptRest);
    }
  }

  lemma JoinThree(a: string, b: string, c: string)
    ensures Join([a, b, c]) == a + (b + c)
  {
    assert [c][1..] == [];
    assert Join([c]) == c;
    assert [b, c][1..] == [c];
    assert [a, b, c][1..] == [b, c];
  }

  lemma JoinFive(a: string, b: string, c: string, d: string, e: string)
    ensures Join([a, b, c, d, e]) == a + (b + (c + (d + e)))
  {
    assert [e][1..] == [];
    assert Join([e]) == e;
    assert [d, e][1..] == [e];
    assert Join([d, e]) == d + Join([e]);
    assert [c, d, e][1..] == [d, e];
    assert Join([c, d, e]) == c + Join([d, e]);
    assert [b, c, d, e][1..] == [c, d, e];
    assert Join([b, c, d, e]) == b + Join([c, d, e]);
    assert [a, b, c, d, e][1..] == [b, c, d, e];
  }

  /** The document text of a layout. */
  function Render(d: Layout): string
  {
    DocumentHead + d.accent + TablistOpen + ButtonsHtml(d.buttons) + TablistClose +
    PanelsHtml(d.panels) + ScriptText(d.remember)
  }

  /** Every button of a layout is written whole into its document. */
  lemma RenderHoldsButtons(d: Layout)
    ensures HoldsButtons(Render(d), d)
  {
    DocumentParts(Render(d), DocumentHead + d.accent + TablistOpen, d.buttons, TablistClose, d.panels, ScriptText(d.remember));
  }

  /** Every panel of a layout is written whole into its document. */
  lemma RenderHoldsPanels(d: Layout)
    ensures HoldsPanels(Render(d), d)
  {
    DocumentParts(Render(d), DocumentHead + d.accent + TablistOpen, d.buttons, TablistClose, d.panels, ScriptText(d.remember));
  }

  /** A layout's document ends with the script for its remember flag. */
  lemma RenderEndsWithScript(d: Layout)
    ensures EndsWith(Render(d), ScriptText(d.remember))
  {
    DocumentParts(Render(d), DocumentHead + d.accent + TablistOpen, d.buttons, TablistClose, d.panels, ScriptText(d.remember));
  }

  lemma DocumentParts(doc: string, head: string, bs: seq<Button>, mid: string, ps: seq<Panel>, tail: string)
    requires doc == head + ButtonsHtml(bs) + mid + PanelsHtml(ps) + tail
    ensures forall i :: 0 <= i < |bs| ==> Includes(doc, RenderButton(bs[i]))
    ensures forall i :: 0 <= i < |ps| ==> Includes(doc, RenderPanel(ps[i]))
    ensures EndsWith(doc, tail)
  {
    var before, after := head + ButtonsHtml(bs), mid + PanelsHtml(ps) + tail;
    assert doc == before + after;
    forall i | 0 <= i < |bs| ensures Includes(doc, RenderButton(bs[i])) {
      ButtonsInOrder(bs, i);
      IncludesMiddle(ButtonsHtml(bs[..i]), RenderButton(bs[i]), ButtonsHtml(bs[i + 1..]));
      IncludesInSuffix(head, ButtonsHtml(bs), RenderButton(bs[i]));
      IncludesInPrefix(before, after, RenderButton(bs[i]));
    }
    var upTo := head + ButtonsHtml(bs) + mid;
    forall i | 0 <= i < |ps| ensures Includes(doc, RenderPanel(ps[i])) {
      PanelsInOrder(ps, i);
      IncludesMiddle(PanelsHtml(ps[..i]), RenderPanel(ps[i]), PanelsHtml(ps[i + 1..]));
      IncludesInSuffix(upTo, PanelsHtml(ps), RenderPanel(ps[i]));
      IncludesInPrefix(upTo + PanelsHtml(ps), tail, RenderPanel(ps[i]));
    }
    assert doc[|doc| - |tail|..] == tail;
  }

  /** `build(tabs, opts)`: the document holds the escaped title and the
      content, as written, of every tab it shows. */
  function Build(tabs: seq<Tab>, opts: Options): (r: string)
    ensures ShowsEveryTab(r, tabs)
  {
    LayoutShowsEveryTab(tabs, opts);
    Render(BuildLayout(tabs, opts))
  }

  /** `doc` holds the escaped title and the content of every tab that a
      document of `tabs` shows. */
  predicate ShowsEveryTab(doc: string, tabs: seq<Tab>) {
    forall i :: 0 <= i < |Shown(tabs)| ==>
      Includes(doc, Esc(Shown(tabs)[i].title)) && Includes(doc, Shown(tabs)[i].content)
  }

  lemma LayoutShowsEveryTab(tabs: seq<Tab>, opts: Options)
    ensures ShowsEveryTab(Render(BuildLayout(tabs, opts)), tabs)
  {
    var d := BuildLayout(tabs, opts);
    RenderHoldsButtons(d);
    RenderHoldsPanels(d);
    TabsInDocument(tabs, opts, Render(d));
  }

  /** The generated document ends with the script for the remember flag. */
  lemma BuildEndsWithScript(tabs: seq<Tab>, opts: Options)
    ensures EndsWith(Build(tabs, opts), ScriptText(opts.remember))
  {
    RenderEndsWithScript(BuildLayout(tabs, opts));
  }

  /** `doc` holds every button of a layout whole. */
  predicate HoldsButtons(doc: string, d: Layout) {
    forall i :: 0 <= i < |d.buttons| ==> Includes(doc, RenderButton(d.buttons[i]))
  }

  /** `doc` holds every panel of a layout whole. */
  predicate HoldsPanels(doc: string, d: Layout) {
    forall i :: 0 <= i < |d.panels| ==> Includes(doc, RenderPanel(d.panels[i]))
  }

  /** A text holding every button and panel of a layout holds every shown
      tab's escaped title and content. */
  lemma TabsInDocument(tabs: seq<Tab>, opts: Options, doc: string)
    requires HoldsButtons(doc, BuildLayout(tabs, opts)) && HoldsPanels(doc, BuildLayout(tabs, opts))
    ensures ShowsEveryTab(doc, tabs)
  {
    var d := BuildLayout(tabs, opts);
    forall i | 0 <= i < |Shown(tabs)|
      ensures Includes(doc, Esc(Shown(tabs)[i].title)) && Includes(doc, Shown(tabs)[i].content)
    {
      assert d.buttons[i].caption == Esc(Shown(tabs)[i].title) && d.panels[i].body == Shown(tabs)[i].content;
      IncludesTrans(doc, RenderButton(d.buttons[i]), d.buttons[i].caption);
      IncludesTrans(doc, RenderPanel(d.panels[i]), d.panels[i].body);
    }
  }

  /** The buttons are written whole and in input order: button i comes right
      after buttons 0..i and right before the rest. */
  lemma ButtonsInOrder(bs: seq<Button>, i: nat)
    requires i < |bs|
    ensures ButtonsHtml(bs) == ButtonsHtml(bs[..i]) + RenderButton(bs[i]) + ButtonsHtml(bs[i + 1..])
  {
    MappedJoinSplit(bs, RenderButton, i);
  }

  /** The panels are written whole and in input order. */
  lemma PanelsInOrder(ps: seq<Panel>, i: nat)
    requires i < |ps|
    ensures PanelsHtml(ps) == PanelsHtml(ps[..i]) + RenderPanel(ps[i]) + PanelsHtml(ps[i + 1..])
  {
    MappedJoinSplit(ps, RenderPanel, i);
  }

  /** With the active tab remembered, the generated document holds both
      cookie snippets. */
  lemma CookieSnippetsPresent(tabs: seq<Tab>, opts: Options)
    requires opts.remember
    ensures Includes(Build(tabs, opts), CookieWrite) && Includes(Build(tabs, opts), CookieRead)
  {
    ScriptHoldsWrite();
    ScriptHoldsRead();
    BuildEndsWithScript(tabs, opts);
    IncludedBySuffix(Build(tabs, opts), ScriptText(true), CookieWrite);
    IncludedBySuffix(Build(tabs, opts), ScriptText(true), CookieRead);
  }

  /** The document carries both cookie snippets. */
  predicate WritesCookie(doc: string) {
    Includes(doc, CookieWrite) && Includes(doc, CookieRead)
  }

  /** The remember option reaches the document: with it, the built
      document carries the cookie write and the cookie read. */
  lemma BuildWritesCookie(tabs: seq<Tab>, opts: Options)
    ensures opts.remember ==> WritesCookie(Build(tabs, opts))
  {
    if opts.remember {
      CookieSnippetsPresent(tabs, opts);
    }
  }

  lemma ScriptHoldsWrite()
    ensures Includes(ScriptText(true), CookieWrite)
  {
    SlotsIncluded(ScriptUntilWrite, CookieWrite, ScriptUntilRead, CookieRead, ScriptRest);
  }

  lemma ScriptHoldsRead()
    ensures Includes(ScriptText(true), CookieRead)
  {
    SlotsIncluded(ScriptUntilWrite, CookieWrite, ScriptUntilRead, CookieRead, ScriptRest);
  }

  /** The two slots of a five-part text are included in it. */
  lemma SlotsIncluded(a: string, b: string, c: string, d: string, e: string)
    ensures Includes(a + (b + (c + (d + e))), b) && Includes(a + (b + (c + (d + e))), d)
  {
    IncludesMiddle(a, b, c + (d + e));
    assert a + b + (c + (d + e)) == a + (b + (c + (d + e)));
    IncludesMiddle(c, d, e);
    assert c + d + e == c + (d + e);
    IncludesInSuffix(b, c + (d + e), d);
    IncludesInSuffix(a, b + (c + (d + e)), d);
  }
}
