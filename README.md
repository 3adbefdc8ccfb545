# A Dafny model of the coursework site's Tabs Generator and feature pages

The site is a set of browser pages. Its main piece is the **Tabs Generator**
(`app/tabs/page.tsx`). The user edits a list of up to 15 tabs (title and
content), an accent colour and a "remember last active tab" flag. The page
turns them into one self-contained HTML document. That document carries
inline styles and a small script implementing the ARIA tabs pattern: a roving
tabindex, Left/Right/Home/End keys, and an optional cookie that restores the
last selected tab.

The model covers:

- **Text** (`text.dfy`): JavaScript's `trim`, ASCII `toLowerCase`,
  `includes`, decimal printing of indices, and string joining.
- **TabsGenerator** (`tabs_generator.dfy`): `esc`, `preset` and `build`.
  `build` is modelled in two layers. The first is the document's structure:
  buttons and panels with their ids, pairing, captions and bodies. The second
  is the literal markup written from them.
- **TabsEditor** (`tabs_editor.dfy`): the editor page. Its state is a class
  with the list mutators `update`, `add`, `remove`, `setCount`, the examples
  load, `resetStarter` and the two option setters. It also restores the saved
  state on load.
- **TabsScript** (`tabs_script.dfy`): the embedded script running in the
  generated document. A `TabStrip` class holds the button attributes and
  panel `hidden` flags as arrays. `activate` is a loop over them. The model
  also covers the keyboard handler and the initial selection read from the
  cookie.
- **TicTacToe**, **Play**, **ReactTutorial** (`tictactoe.dfy`, `play.dfy`,
  `react_tutorial.dfy`): the rules the two Tic-Tac-Toe pages share, and the
  state of each page. The tutorial's `calculateWinner` is a search loop.
- **Todo**, **Blog** (`todo.dfy`, `blog.dfy`): the todo list and the local
  blog.
- **SiteTabs**, **Carousel**, **Navigation** (`site_tabs.dfy`,
  `carousel.dfy`, `navigation.dfy`): the in-site tabs component, the carousel
  and the two-menu navigation.
- **Selection**, **Keyboard**, **Wrappers**: small shared definitions. These
  are the `idx===i` comparison, the keys the handlers react to, and `Option`.

Inputs the pages get from the browser are parameters of the model:

- the parsed saved record;
- the cookie's value after `Number(…)`;
- `crypto.randomUUID()` and `Date.now()`;
- the keys pressed;
- whether a click falls inside the navigation.

The model follows the code wherever a plain reading of the pages would
suggest otherwise:

- A saved state whose tab list is empty does not restore the list. The load
  effect tests only `saved.tabs?.length`, so the page keeps the tabs it had
  (`TabsEditor.EmptySavedListNotRestored`). The round trip
  `TabsEditor.SaveThenRestore` therefore needs 1 to 15 tabs.
- That test is the only check on `tabs`. A value with a `length` but no
  `slice` makes the effect throw, and the catch swallows it, so the accent and
  the flag after it are not restored either
  (`TabsEditor.UnsliceableTabsKeepAccent`). A non-empty string passes the
  test and is installed; see "Left out".
- `build` does not show every tab it is given. It keeps the first 15
  (`slice(0, MAX_TABS)`) and writes one placeholder tab for an empty list, so
  a document has between 1 and 15 tabs (`TabsGenerator.Shown`).
- The script restores any cookie value `sv` with `0 <= sv < tabs.length`,
  fractional values included (`TabsScript.StartAsWritten`; see "Findings").

## Model

| member | source | states |
|---|---|---|
| Text.Trim | app/todo/page.tsx:16 | the result is a slice of the input with only JavaScript whitespace cut at either end, and it neither starts nor ends with whitespace |
| Text.TrimEmptyIffBlank | app/blog/page.tsx:18 | a trimmed text is empty exactly when the text is all whitespace |
| Text.NatTextInjective | app/tabs/page.tsx:241 | different indices print as different decimal texts, so the generated ids differ |
| TabsGenerator.Esc | app/tabs/page.tsx:222 | the three chained replaces equal one left-to-right pass writing each `&`, `<`, `>` as its entity, and the result holds no `<` or `>` |
| TabsGenerator.ChainedReplacesAreOnePass | app/tabs/page.tsx:222 | replacing `&` first, then `<`, then `>` never re-escapes an entity already written |
| TabsGenerator.UnescapeEsc | app/tabs/page.tsx:222 | decoding the entities of an escaped title gives the title back |
| TabsGenerator.EscIdentity | app/tabs/page.tsx:222 | a title without `&`, `<`, `>` is written unchanged |
| TabsGenerator.TabCount | app/tabs/page.tsx:226 | the preset size is always within 1..15; it is n when n is in range, 1 below, and 15 above |
| TabsGenerator.Preset | app/tabs/page.tsx:225-231 | the preset holds the clamped number of tabs; tab i is titled "Tab i+1" with content "This is content for Tab i+1." |
| TabsGenerator.PresetTitlesDistinct | app/tabs/page.tsx:228 | no two preset tabs share a title |
| TabsGenerator.Shown | app/tabs/page.tsx:237 | the shown list holds 1 to 15 tabs: the first 15 given, or the placeholder for an empty list |
| TabsGenerator.BuildLayout | app/tabs/page.tsx:234-251 | the document has 1 to 15 buttons and as many panels, with ids `t-i`/`t-i-p` paired by aria-controls/aria-labelledby; captions are the escaped titles and bodies are the raw contents; the accent falls back to #64748b; the remember flag is kept |
| TabsGenerator.IdsDistinct | app/tabs/page.tsx:241-248 | no two buttons share an id, no two panels share an id, and no button id is a panel id |
| TabsGenerator.EmptyTabsGivePlaceholder | app/tabs/page.tsx:237 | an empty list gives exactly one button "Tab 1" and one panel "Edit me." |
| TabsGenerator.ScriptPieces | app/tabs/page.tsx:294-299 | the script template holds the cookie write and the cookie read exactly when the tab is remembered; its fixed text is the same either way |
| TabsGenerator.RenderButton | app/tabs/page.tsx:241-242 | a button's markup contains its caption, the escaped title |
| TabsGenerator.RenderPanel | app/tabs/page.tsx:248-249 | a panel's markup contains its body, the raw content |
| TabsGenerator.ScriptText | app/tabs/page.tsx:261-314 | the script is its fixed text with the cookie write at the end of `activate` and the cookie read before the first `activate`, exactly when the tab is remembered; without the flag both slots are empty |
| TabsGenerator.DocumentParts | app/tabs/page.tsx:253-314 | in a text laid out as head, buttons, middle, panels and tail, every button's and panel's markup occurs and the text ends with the tail |
| TabsGenerator.RenderHoldsButtons | app/tabs/page.tsx:253-258 | the document text holds every button's markup |
| TabsGenerator.RenderHoldsPanels | app/tabs/page.tsx:259-260 | the document text holds every panel's markup |
| TabsGenerator.RenderEndsWithScript | app/tabs/page.tsx:261-314 | the document text ends with the script for its remember flag and the closing tags |
| TabsGenerator.TabsInDocument | app/tabs/page.tsx:237-251 | a text holding every button and panel of the layout holds the escaped title and the raw content of every kept tab |
| TabsGenerator.LayoutShowsEveryTab | app/tabs/page.tsx:237-260 | the rendered layout holds the escaped title and the raw content of every kept tab |
| TabsGenerator.Build | app/tabs/page.tsx:234-315 | the document holds the escaped title and the raw content of each of the first 15 tabs, or of the placeholder tab for an empty list |
| TabsGenerator.BuildEndsWithScript | app/tabs/page.tsx:261-314 | the document ends with the script for the remember flag |
| TabsGenerator.ScriptHoldsWrite | app/tabs/page.tsx:294 | the remembered script holds the `setCookie` call |
| TabsGenerator.ScriptHoldsRead | app/tabs/page.tsx:299 | the remembered script holds the cookie read |
| TabsGenerator.BuildWritesCookie | app/tabs/page.tsx:294-299 | with the tab remembered, the built document carries the cookie write and the cookie read, so the option reaches the output |
| TabsGenerator.ButtonsInOrder | app/tabs/page.tsx:239-244 | each button's markup is written whole, in input order, between those before and those after it |
| TabsGenerator.PanelsInOrder | app/tabs/page.tsx:246-251 | each panel's markup is written whole and in input order |
| TabsGenerator.CookieSnippetsPresent | app/tabs/page.tsx:294-299 | with the tab remembered, the document text holds both the `setCookie` call and the cookie read |
| TabsEditor.Updated | app/tabs/page.tsx:43-44 | editing keeps the length, merges the patch into tab i only, and changes nothing for an index outside the list |
| TabsEditor.UpdatedTwice | app/tabs/page.tsx:43-44 | two edits of tab i equal one edit whose patch is the second merged over the first |
| TabsEditor.Added | app/tabs/page.tsx:45-48 | below 15 tabs, one tab "Tab n+1"/"Edit me." is appended after the old list; at 15 the list is unchanged |
| TabsEditor.Removed | app/tabs/page.tsx:49 | exactly the tab at index i is dropped and the rest keep their order; an index outside the list changes nothing |
| TabsEditor.RemoveUndoesAdd | app/tabs/page.tsx:45-49 | removing the tab just added gives the old list back |
| TabsEditor.Truncated | app/tabs/page.tsx:59 | at most 15 tabs are kept, as a prefix of the list |
| TabsEditor.Restore | app/tabs/page.tsx:22-31 | with nothing parsed the state is kept; a non-empty saved list replaces the tabs truncated to 15, and the accent and flag are replaced field by field only when present |
| TabsEditor.RestoreKeepsBound | app/tabs/page.tsx:27 | whatever was stored, the restored list stays within 15 tabs |
| TabsEditor.SaveThenRestore | app/tabs/page.tsx:22-37 | loading what was saved from a state with 1 to 15 tabs gives that state back |
| TabsEditor.EmptySavedListNotRestored | app/tabs/page.tsx:27 | a saved empty list restores the accent and flag but keeps the current tabs |
| TabsEditor.UnsliceableTabsKeepAccent | app/tabs/page.tsx:27-28 | a saved `tabs` with a length but no `slice` keeps the current accent even when the record carries another |
| TabsEditor.PreviewShowsPreset | app/tabs/page.tsx:84-86 | a preview of n tabs has the clamped count of buttons, captioned "Tab 1", "Tab 2", … |
| TabsEditor.Editor.constructor | app/tabs/page.tsx:12-18 | the editor starts with the three starter tabs, accent #64748b and remember on |
| TabsEditor.Editor.Html | app/tabs/page.tsx:40 | the live document holds the escaped title and the content of every kept tab of the editor, and the cookie write and read when the tab is remembered |
| TabsEditor.Editor.Preview | app/tabs/page.tsx:84-86 | the preview of n holds the escaped title and the content of every tab of the n-tab preset, and the cookie write and read when the tab is remembered |
| TabsEditor.Editor.Load | app/tabs/page.tsx:22-31 | the mount effect replaces the state by its restore and keeps the 15-tab bound |
| TabsEditor.Editor.Update | app/tabs/page.tsx:43-44 | the list becomes its edited version and nothing else changes |
| TabsEditor.Editor.Add | app/tabs/page.tsx:45-48 | the list becomes `Added` of the old list and stays within 15 |
| TabsEditor.Editor.Remove | app/tabs/page.tsx:49 | the list becomes `Removed` of the old list |
| TabsEditor.Editor.SetCount | app/tabs/page.tsx:52-56 | the list becomes the preset of n |
| TabsEditor.Editor.LoadExamples | app/tabs/page.tsx:59 | the list becomes the examples truncated to 15 |
| TabsEditor.Editor.ResetStarter | app/tabs/page.tsx:60-66 | the list becomes the three starter tabs |
| TabsEditor.Editor.SetAccent | app/tabs/page.tsx:110 | only the accent changes |
| TabsEditor.Editor.SetRemember | app/tabs/page.tsx:116 | only the remember flag changes |
| TabsScript.KeyTarget | app/tabs/page.tsx:306-309 | ArrowLeft goes to the previous tab, wrapping from the first to the last; ArrowRight goes to the next, wrapping from the last to the first; Home and End give the ends; any other key is ignored; the target is always a tab |
| TabsScript.ArrowsAreInverse | app/tabs/page.tsx:308-309 | Left undoes Right and Right undoes Left |
| TabsScript.StartAsWritten | app/tabs/page.tsx:298-299 | the start is 0 unless the tab is remembered and the cookie is a finite number; it lies in [0, n) whenever there is a tab; a finite cookie value in [0, n) is taken as it is |
| TabsScript.NonIntegerCookieSelectsNothing | app/tabs/page.tsx:299 | a fractional cookie value in range passes the check, and `activate` then selects no button |
| TabsScript.Start | app/tabs/page.tsx:298-300 | the intended start is the cookie's value when it is the index of a tab, 0 otherwise, and exactly one button is then selected |
| TabsScript.CookieRoundTrip | app/tabs/page.tsx:294-299 | the index written to the cookie is the tab selected on the next load |
| Selection.MarksCount | app/tabs/page.tsx:285-287 | comparing every index with k marks one element when k is an index and none otherwise |
| TabsScript.PanelIndex | app/tabs/page.tsx:290 | a panel `getElementById` finds carries the id looked up |
| TabsScript.PanelIndexFirst | app/tabs/page.tsx:290 | the panel found is the first with that id, and none is found only when no panel has it |
| TabsScript.GeneratedIdsPaired | app/tabs/page.tsx:290 | in a generated document, button i's id plus "-p" finds panel i |
| TabsScript.ActivatedSelectsOne | app/tabs/page.tsx:285-287 | after `activate(k, …)` exactly one button carries aria-selected "true" |
| TabsScript.Markup | app/tabs/page.tsx:241-248 | the markup writes every button unselected with tabindex -1 and the plain style, and every panel hidden |
| TabsScript.TabStrip.constructor | app/tabs/page.tsx:241-248 | before the script runs, the document's ids are kept, no button is selected, every panel is hidden, and no cookie is written |
| TabsScript.TabStrip.Boot | app/tabs/page.tsx:297-299 | the intended start-up (integer cookie values only, see "Findings") selects the start tab alone and shows its panel alone; the cookie is written only when remembered; the focus does not move |
| TabsScript.TabStrip.MarkTab | app/tabs/page.tsx:286-291 | one step of the walk sets button idx's attributes and its own panel's flag and changes no other button or panel |
| TabsScript.TabStrip.Activate | app/tabs/page.tsx:284-295 | tab k alone is selected with tabindex 0 and the accent style, and panel k alone is shown; focus moves on request; the cookie holds k when remembered; exactly one button is selected |
| TabsScript.TabStrip.Click | app/tabs/page.tsx:304 | a click activates that tab without moving the focus |
| TabsScript.TabStrip.KeyDown | app/tabs/page.tsx:305-311 | the four keys activate and focus their target; other keys change nothing |
| TicTacToe.FirstComplete | app/play/page.tsx:16-17 | the search returns the first complete line, or none when no line is complete |
| TicTacToe.Winner | app/play/page.tsx:17 | there is no winner exactly when no line is complete; otherwise the winner is the mark on the first complete line |
| TicTacToe.LineWins | app/play/page.tsx:17 | a complete line makes its mark the winner when every complete line has that mark |
| TicTacToe.Status | app/play/page.tsx:25 | a winner is reported when there is one; Draw exactly when no one has won and the board is full; otherwise the mark to move |
| TicTacToe.Click | app/play/page.tsx:27-32 | a taken square or a won game changes nothing; otherwise the shown board gets the mark to move, later boards are dropped, the new board is shown, and the turn passes |
| TicTacToe.ClickKeepsTurns | app/play/page.tsx:27-32 | each board in the history holds alternating X and O counts, X first, and X moves on even steps; a click keeps this |
| TicTacToe.JumpToAsWritten | app/play/page.tsx:45 | as written, the jump changes only the step and keeps the turn |
| TicTacToe.StaleTurnAfterJump | app/play/page.tsx:45 | after X's first move and a jump to the start, O makes the first move and the turn invariant breaks |
| TicTacToe.JumpTo | app/play/page.tsx:45 | the intended jump shows board m with X to move exactly when m is even |
| TicTacToe.JumpToKeepsTurns | app/play/page.tsx:45 | the intended jump keeps the turn invariant |
| TicTacToe.RunKeepsTurns | app/play/page.tsx:27-45 | any sequence of clicks and intended jumps keeps the turn invariant |
| TicTacToe.StatusText | app/play/page.tsx:25 | "Draw" is shown exactly when no one has won and the board is full; otherwise "Winner: m", or the page's label and the mark to move ("Next: m" here, "Next player: m" at app/react-tutorial/page.tsx:34) |
| Play.PlayPage.constructor | app/play/page.tsx:20-22 | the game starts with one empty board at step 0 and X to move, which meets the turn invariant |
| Play.PlayPage.Click | app/play/page.tsx:27-32 | the page's history, step and turn become the game's click, and the turn invariant is kept |
| Play.PlayPage.JumpTo | app/play/page.tsx:45 | the page state becomes the intended jump, and the turn invariant is kept |
| ReactTutorial.CalculateWinner | app/react-tutorial/page.tsx:17-25 | the loop returns the mark on the first complete line, or null when there is none, equal to the winner |
| ReactTutorial.TutorialPage.constructor | app/react-tutorial/page.tsx:28-30 | the game starts with one empty board at step 0 and X to move, which meets the turn invariant |
| ReactTutorial.TutorialPage.HandleClick | app/react-tutorial/page.tsx:36-44 | the page state becomes the game's click, and the turn invariant is kept |
| ReactTutorial.TutorialPage.JumpTo | app/react-tutorial/page.tsx:57 | the page state becomes the intended jump |
| Todo.Left | app/todo/page.tsx:14 | the count of items left is at most the number of items |
| Todo.LeftExtremes | app/todo/page.tsx:14 | the count of items left is 0 exactly when all are done, and the length exactly when none is |
| Todo.Toggled | app/todo/page.tsx:17 | toggling flips `done` on exactly the items with that id and keeps the length, order, ids and texts |
| Todo.ToggleTwice | app/todo/page.tsx:17 | toggling twice gives the list back |
| Todo.ToggleChangesLeftByOne | app/todo/page.tsx:14-17 | with unique ids, toggling an item changes the count left by exactly one |
| Todo.Removed | app/todo/page.tsx:18 | the items kept are exactly those with another id; an unknown id leaves the list unchanged |
| Todo.RemovedConcat | app/todo/page.tsx:18 | removal works item by item, so the items kept stay in order |
| Todo.RemovedKeepsUnique | app/todo/page.tsx:18 | removal keeps the ids unique |
| Todo.TodoPage.constructor | app/todo/page.tsx:8-9 | the input is empty and so is the list, whose ids are then unique |
| Todo.TodoPage.SetText | app/todo/page.tsx:29 | typing sets the input to the typed value and leaves the list alone |
| Todo.TodoPage.Add | app/todo/page.tsx:16 | blank text changes nothing; otherwise a new not-done item with the trimmed text is put first, the input is cleared, and one more item is left |
| Todo.TodoPage.Toggle | app/todo/page.tsx:17 | the list becomes its toggled version, and the count left moves by one |
| Todo.TodoPage.Remove | app/todo/page.tsx:18 | the list becomes its removed version, and the ids stay unique |
| Blog.Matches | app/blog/page.tsx:14 | the empty query matches every post, and a title or body containing the query as typed matches whatever its case |
| Blog.Filtered | app/blog/page.tsx:14 | the search keeps exactly the posts whose lowercased title or body contains the lowercased query |
| Blog.FilteredIsSubsequence | app/blog/page.tsx:14 | the search result is a subsequence of the posts |
| Blog.FilteredConcat | app/blog/page.tsx:14 | the search works post by post, keeping the order |
| Blog.EmptyQueryKeepsAll | app/blog/page.tsx:14 | an empty query keeps every post |
| Blog.FindById | app/blog/page.tsx:15 | the lookup finds the first post with the id, or none |
| Blog.Current | app/blog/page.tsx:15 | the post shown is the viewed post when it exists; otherwise the first search result, or none |
| Blog.BlogPage.constructor | app/blog/page.tsx:8-9 | the form, the query and the post list start empty and no post is viewed |
| Blog.BlogPage.Publish | app/blog/page.tsx:17-21 | with a blank title or body nothing changes; otherwise the trimmed post is put first, the form is cleared, and the new post is viewed and shown |
| SiteTabs.KeysKeepRange | app/components/tabs.tsx:16-22 | on a non-empty list every key keeps the index in range |
| SiteTabs.ArrowsWrapAndInvert | app/components/tabs.tsx:18-19 | Right from the last tab gives the first and Left from the first gives the last; in range each arrow undoes the other |
| SiteTabs.AgreesWithGeneratedScript | app/components/tabs.tsx:16-22 | in range, the component's comparisons agree with the generated script's modular arithmetic for every key |
| SiteTabs.ExactlyOneSelected | app/components/tabs.tsx:39-41 | with the index in range, exactly one button is selected; it alone has tabIndex 0 and its panel alone is shown |
| SiteTabs.TabsComponent.constructor | app/components/tabs.tsx:12 | the component starts at the `initial` tab of its n tabs |
| SiteTabs.TabsComponent.OnKey | app/components/tabs.tsx:16-22 | the index moves as the key says, and an index in range stays in range |
| SiteTabs.TabsComponent.Click | app/components/tabs.tsx:42 | a click selects that tab |
| Carousel.JsRem | app/components/carousel.tsx:34 | JavaScript's remainder has the sign of the dividend, is smaller than the divisor in size, and is congruent to the dividend |
| Carousel.GoIndex | app/components/carousel.tsx:34 | `go` gives NaN for an empty carousel; otherwise an index in [0, total), the Euclidean remainder |
| Carousel.GoIsEuclidean | app/components/carousel.tsx:34 | the double truncated remainder equals the Euclidean remainder |
| Carousel.GoInRange | app/components/carousel.tsx:34 | `go` leaves an index in range unchanged |
| Carousel.GoPeriodic | app/components/carousel.tsx:34 | `go(n + total)` equals `go(n)` |
| Carousel.NextPrevWrap | app/components/carousel.tsx:35-36 | `next` from the last slide is the first, and `prev` from the first is the last |
| Carousel.ExactlyOneActive | app/components/carousel.tsx:94-95 | with the index in range, exactly one slide is not aria-hidden; it alone has tabIndex 0 and its dot alone is current |
| Carousel.AutoAdvance | app/components/carousel.tsx:40 | the effect schedules a timer exactly when autoMs > 0, there are at least two slides and the carousel is not paused, and then the controls are shown |
| Carousel.ControlsShown | app/components/carousel.tsx:137 | the previous/next buttons (and the dots at line 165) are shown exactly when going to slide 1 lands elsewhere than going to slide 0 |
| Carousel.CarouselComponent.constructor | app/components/carousel.tsx:27-30 | the carousel starts at slide 0, unpaused, with no timer pending |
| Carousel.CarouselComponent.Go | app/components/carousel.tsx:34 | the index becomes `go(n)` and stays in range when there are slides |
| Carousel.CarouselComponent.Next | app/components/carousel.tsx:35 | the index becomes `go(i+1)` |
| Carousel.CarouselComponent.Prev | app/components/carousel.tsx:36 | the index becomes `go(i-1)` |
| Carousel.CarouselComponent.OnKey | app/components/carousel.tsx:57-62 | Home and End give the first and last slide, the arrows give prev and next, and other keys change nothing |
| Carousel.CarouselComponent.Pause | app/components/carousel.tsx:75-77 | hover or focus sets the pause flag |
| Carousel.CarouselComponent.Resume | app/components/carousel.tsx:76-78 | leaving or blurring clears the pause flag |
| Carousel.CarouselComponent.RunAutoAdvanceEffect | app/components/carousel.tsx:39-44 | a timer is pending exactly when autoMs > 0, there are at least 2 slides, and the carousel is not paused |
| Carousel.CarouselComponent.TimerFires | app/components/carousel.tsx:41 | the timeout advances to the next slide |
| Navigation.AtMostOneActive | app/components/navigation.tsx:62 | a link is active when the pathname equals its href, so in a list of distinct hrefs at most one link is active, and one exactly when the page is in the list |
| Navigation.SiteLinksDistinct | app/components/navigation.tsx:10-28 | all nine hrefs differ, so at most one link of the whole bar is active |
| Navigation.Nav.constructor | app/components/navigation.tsx:32-33 | both menus start closed |
| Navigation.Nav.ToggleQuick | app/components/navigation.tsx:86-89 | the kebab flips the quick links and closes the project pages; the menus are never both open |
| Navigation.Nav.ToggleMore | app/components/navigation.tsx:128-131 | the hamburger flips the project pages and closes the quick links; the menus are never both open |
| Navigation.Nav.DocumentClick | app/components/navigation.tsx:46-51 | a click outside the mounted nav closes both menus; any other click changes nothing |
| Navigation.Nav.QuickListClick | app/components/navigation.tsx:102 | a click in the quick list closes that menu only |
| Navigation.Nav.MoreListClick | app/components/navigation.tsx:144 | a click in the project list closes that menu only |

## Left out

- Persistence I/O is not modelled. This covers `localStorage`, JSON parsing and serialising, and the version key (app/tabs/page.tsx:22-37, app/todo/page.tsx:11-12, app/blog/page.tsx:11-12). `TabsEditor.Restore` starts from the record already parsed. An `accent` or `remember` that is absent or of the wrong type is `None`, and a failed parse is `None` as a whole. `tabs` is `NoTabs` when it has no length, `TabList` when it is a list of tabs, and `NoSlice` when it has a length but no `slice`.
- TabsEditor.Restore: a saved `tabs` that is a non-empty string, or an array whose elements are not tabs, passes the `saved.tabs?.length` test and is installed; the page then throws when it renders the list. The model's saved list holds only tabs, so that crash is not represented.
- The script's `setCookie`/`getCookie` text, encoding and expiry date (app/tabs/page.tsx:265-266) are browser APIs. The cookie is an `Option<int>` field that `Activate` writes. What `Number(getCookie(…))` gives on the next load is the `JsNumber` parameter of `TabStrip.Boot`.
- The navigation's `last_menu` cookie (app/components/navigation.tsx:40-42) is a browser side effect and is not modelled.
- `tabs[i].focus()` is the `focused` field. The carousel's focus effect and `onSlideChange` callback (app/components/carousel.tsx:46-54) are asynchronous DOM behaviour and are not modelled.
- The carousel's timers are one `timerPending` flag. `RunAutoAdvanceEffect` models the effect run after a change, i.e. clearing the old timer and maybe setting a new one. React's scheduling of effects is not modelled.
- Copying to the clipboard, the `Blob` download, the status message with its timeout, and the iframe previews (app/tabs/page.tsx:69-81, 187-212) are browser output. Only the document string they show is modelled (`Editor.Html`, `Editor.Preview`).
- `buildAllExamples` (app/tabs/page.tsx:318 onward) is fixed showcase content and is passed to `LoadExamples` as a parameter.
- `crypto.randomUUID()` and `Date.now()` are parameters. Todo.TodoPage.Add: requires the new id not to be in use. This stands for the UUID being fresh, and it keeps the ids unique.
- `toLowerCase` is ASCII only. The blog's search does not model Unicode case mapping.
- Text.Trim: removes the ECMAScript whitespace and line-terminator code points, not any wider Unicode notion of space.
- TabsGenerator.CookieSnippetsPresent: states only the remembered direction on the document text. The converse does not hold of the whole text: the accent or a raw panel body can itself carry the snippet text. That the script leaves the snippets out without the flag is stated on the script (`ScriptPieces`, `ScriptText`).
- The generated markup is modelled as written (`RenderButton`, `RenderPanel`, the fixed document parts). HTML parsing is modelled only through the entity decoding of `Unescape`.
- Panel contents are inserted unescaped by design ("HTML allowed"), and the model keeps them as raw text.
- The in-site tabs' `useId` group prefix and the carousel's slide ids are not modelled. They only name elements.
- Keys are the four navigation keys and `Other`. `preventDefault` is not modelled.
- The theme files, header, footer, kebab and hamburger buttons, the about and home pages, and the layout are presentational and are not part of this model.
- TabsScript.TabStrip.constructor: takes the document's button ids and panel ids rather than the tab list, and requires that each button's `id+'-p'` lookup finds its own panel. `GeneratedIdsPaired` shows that every generated layout meets this, as long as its panel contents carry no `role="tab"` element and no element with an id `t-k-p`. A hand-edited document that breaks it is not modelled.
- TabsScript.GeneratedIdsPaired: panel contents are raw HTML. One that holds a `role="tab"` element or an element with id `t-k-p` changes what `qsa('[role="tab"]')` and `getElementById` find, and the pairing is not proved for such documents.
- TabsScript.TabStrip.Boot: starts from the intended `Start`, so a fractional cookie such as 0.5 selects tab 0 and writes 0 to the cookie. The script as written runs `activate(0.5, false)`, which selects no button, hides every panel and writes "0.5"; `Activate` takes an integer index, so that run is not reproduced on the arrays. `StartAsWritten` and `NonIntegerCookieSelectsNothing` state it on values.
- TicTacToe.Click: requires a square index below 9, since only the nine rendered squares can be clicked.

## Findings

| source | as written | input that shows it | evidently intended | confidence | as-written member | corrected member |
|---|---|---|---|---|---|---|
| app/tabs/page.tsx:299 | the restored `start` is any number with `sv>=0&&sv<tabs.length` | cookie `last_active_tab_index=0.5` with 3 tabs: `activate(0.5)` marks no button and hides every panel | only an integer index is restored, otherwise 0 | low, not executed (the script itself writes only integers) | TabsScript.NonIntegerCookieSelectsNothing | TabsScript.Start |
| app/play/page.tsx:45 | "Go to move #m" sets only `step`, so `x` keeps the turn of the board left | X plays square 0, "Go to start", then square 4: O is placed on an empty board | X is to move on even steps (`x = m % 2 === 0`) | high, not executed | TicTacToe.StaleTurnAfterJump | TicTacToe.JumpTo |
| app/react-tutorial/page.tsx:57 | "Go to move #m" sets only `step`, so `xIsNext` is stale | the same clicks as above | `xIsNext = m % 2 === 0`, as the react.dev tutorial computes it | high, not executed | TicTacToe.StaleTurnAfterJump | TicTacToe.JumpTo |
