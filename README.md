# Portfolio site core, modelled in Dafny

The portfolio is a Next.js site that is almost entirely presentation. Four
pieces of it hold logic that can be stated and proved, and this project
models them:

- **The inline bold renderer** (`renderMarkdownBold`). It cuts the text into
  lines on `'\n'` and cuts each line with the capturing expression
  `(\*\*[^*]+\*\*)`. Each piece is shown in bold, markers sliced off, when it
  starts and ends with `**`; otherwise it is shown verbatim. A line break
  follows every line but the last. The architecture diagram's two guards
  are modelled beside it: connections whose ends do not both name a
  component are skipped, and each box has one text row per word and a
  height of `max(8, 3 * rows + 2)`.
- **The navigation bar**. This is the menu table, the hover state machine
  (`hoveredItem`, `prevHoveredItem`, `mobileMenuOpen`, the theme, and the
  effect that copies the hovered item into the previous one), and the views
  derived from that state: which submenu is shown, when the
  bridge/backdrop/panel are visible, whether the panel animates in, and how
  each submenu entry is rendered.
- **The project table** and `getProjectBySlug`, a first-match `find`. The
  table's invariants are proved: the slugs are distinct, every connection
  is in range, and every carousel card and every entry of the navbar's
  Projects column resolves to its record.
- **The two carousel arrow handlers**. Each one reads the first card's
  width plus a gap and issues one `scrollBy`. When there is no card, the
  home page falls back to the container width and the project carousel to
  0.85 of it.

Module layout follows the source:

- `Js`: the JavaScript built-ins the code relies on (`split`, `slice`,
  `startsWith`, `endsWith`, `find`).
- `MarkdownBold` and `Diagram`: `components/ProjectDetailComponents.tsx`.
- `Projects`: `data/projects.ts`.
- `SiteData`: the card ids and tags, and the highlight images, from
  `constants/data.ts`.
- `Navbar`: `components/Navbar.tsx`.
- `ScrollDom`, `ProjectCarousel` and `HomePage`: the scroll container and
  the two carousels.

The pure parts are functions. The navbar's state cells are the fields of
the class `Navbar.NavbarState`, and its event handlers are methods on it.
A carousel's container is the class `ScrollDom.ScrollContainer`, which
records every scroll delta issued to it.

Classification does not look at whether a piece was matched. It tests
`startsWith('**') && endsWith('**')` on every piece. So a line the
expression does not match at all can still be shown in bold: `"**a*b**"`
has no match, because `[^*]+` stops at the inner `*`, yet its one piece
starts and ends with `**` and is shown in bold as `a*b`
(`MarkdownBold.ExampleUnmatchedShownBold`, generalised by
`MarkdownBold.StarInsideShownBold`). `"****"` likewise shows as an empty
bold span. An unterminated delimiter, as in `"a **b"`, leaves the whole
line plain (`MarkdownBold.UnclosedMarkerKept`).

The React scheduling is modelled as follows. Every event handler sees the
committed state with the post-render effect already flushed
(`NavbarState.Settled()`). The effect itself is the method
`SettleEffect`. `shouldAnimate` is read in the render between a handler and
its effect, which is where a direct swap between two items finds `prev`
already set (`Navbar.HoverScenario`).

`currentSubmenu` is memoised on `[hoveredItem, activeMenuItem]`. While the
theme icon stays hovered neither dependency changes, so the Light/Dark
actions on screen are the ones built in the render where that hover began,
and they test that render's `theme`. The field `NavbarState.menuTheme`
records that captured theme, and `ClickActionEntry` runs the action
against it (`Navbar.StaleApplyAction`); see "## Findings".

## Model

| member | source | states |
|---|---|---|
| Js.Split | components/ProjectDetailComponents.tsx:217 | `s.split(c)` gives one more piece than there are `c`s, no piece contains `c`, and joining the pieces with `c` gives back `s` |
| Js.SliceIndex | components/ProjectDetailComponents.tsx:229 | a `slice` position lies in `[0, len]`; a non-negative position within range is kept, and a negative one counts back from the end; a position past the end is clamped to `len`, and a negative one reaching before the start to 0 |
| Js.StartsWithPointwise | components/ProjectDetailComponents.tsx:228 | `startsWith(p)` holds if and only if `p` is no longer than the string and agrees with its first `|p|` characters |
| Js.EndsWithPointwise | components/ProjectDetailComponents.tsx:228 | `endsWith(p)` holds if and only if `p` is no longer than the string and agrees with its last `|p|` characters |
| Js.Slice | components/ProjectCardCarousel.tsx:67 | `slice(start, end)` is the subsequence between the resolved positions, or empty when the end does not lie past the start |
| Js.Find | data/projects.ts:666 | `find` returns an element of the list that satisfies the predicate, and returns nothing exactly when no element does |
| Js.FindFirst | data/projects.ts:666 | `find` returns the element at the first index whose element satisfies the predicate |
| MarkdownBold.MatchAt | components/ProjectDetailComponents.tsx:223 | a sticky match of `(\*\*[^*]+\*\*)` at `q` ends at least 5 characters later and spans a token: `**`, a non-empty `*`-free run, `**` |
| MarkdownBold.TokenMatches | components/ProjectDetailComponents.tsx:223 | a token sitting at position `q` is exactly what the expression matches there |
| MarkdownBold.SplitFromLossless | components/ProjectDetailComponents.tsx:223 | the split loop run from a piece start `p` and a search position `q` yields an odd number of pieces that concatenate to the rest of the line from `p`, with a token at every odd position |
| MarkdownBold.SplitLineIsLeftmost | components/ProjectDetailComponents.tsx:223 | the regex split of a line is a leftmost tokenisation: an odd number of pieces that concatenate to the line, tokens at odd positions, and no match starting inside any unmatched piece |
| MarkdownBold.LeftmostSplitUnique | components/ProjectDetailComponents.tsx:223 | a line has only one leftmost tokenisation |
| MarkdownBold.SplitLineCharacterized | components/ProjectDetailComponents.tsx:223 | a sequence of pieces is the regex split of a line if and only if it is a leftmost tokenisation of that line |
| MarkdownBold.SplitLineLossless | components/ProjectDetailComponents.tsx:223 | the split pieces concatenate back to the line, are odd in number, and every odd-positioned (matched) piece is a token |
| MarkdownBold.SplitLineWithoutMatch | components/ProjectDetailComponents.tsx:223 | a line splits into the single piece `line` if and only if no match starts anywhere in it |
| MarkdownBold.OneSpanSplit | components/ProjectDetailComponents.tsx:223 | `x + "**" + w + "**" + y` with `x`, `w`, `y` free of `*` and `w` non-empty splits into exactly `[x, "**" + w + "**", y]` |
| MarkdownBold.Classify | components/ProjectDetailComponents.tsx:228-232 | a piece is bold if and only if it starts and ends with `**`; bold text is the piece without its first and last two characters (empty when shorter than 4); a plain piece is shown verbatim |
| MarkdownBold.ClassifyToken | components/ProjectDetailComponents.tsx:228-229 | a matched token is shown in bold, its text is non-empty and `*`-free, and putting the markers back gives the token |
| MarkdownBold.RenderLine | components/ProjectDetailComponents.tsx:223-232 | one segment per split piece, an odd number of them |
| MarkdownBold.RenderMarkdownBold | components/ProjectDetailComponents.tsx:215-240 | one output line per `'\n'` plus one; a line break follows a line if and only if it is not the last; every line has an odd number of segments |
| MarkdownBold.BreaksMatchNewlines | components/ProjectDetailComponents.tsx:234 | the number of line breaks emitted equals the number of `'\n'` characters in the text |
| MarkdownBold.RenderedLine | components/ProjectDetailComponents.tsx:217-232 | output line `i` is the classified split of input line `i`: segment `j` is the classification of split piece `j`, matched pieces are bold with their markers removed, and plain segments are the pieces verbatim |
| MarkdownBold.NoDelimitersStayPlain | components/ProjectDetailComponents.tsx:223-232 | text without `*` renders each line as a single plain segment equal to that line |
| MarkdownBold.LineWithoutStar | components/ProjectDetailComponents.tsx:223-232 | a line without `*` renders as one plain segment equal to the line |
| MarkdownBold.SingleLine | components/ProjectDetailComponents.tsx:217 | text without `'\n'` is one output line with no line break after it |
| MarkdownBold.OneSpanRendered | components/ProjectDetailComponents.tsx:223-232 | `x + "**" + w + "**" + y` with `*`-free parts and non-empty `w` renders as plain `x`, bold `w`, plain `y` |
| MarkdownBold.StarInsideShownBold | components/ProjectDetailComponents.tsx:223-230 | `"**" + u + "*" + v + "**"` with non-empty `*`-free `u` and `v` has no match, yet renders as the single bold segment `u + "*" + v` |
| MarkdownBold.StarInsideNoMatch | components/ProjectDetailComponents.tsx:223 | no match of the expression starts anywhere in `"**" + u + "*" + v + "**"` |
| MarkdownBold.ShownBoldInner | components/ProjectDetailComponents.tsx:228-229 | a piece of length at least 4 that starts and ends with `**` is shown in bold as its middle, markers removed |
| MarkdownBold.UnclosedMarkerKept | components/ProjectDetailComponents.tsx:223-232 | a line with one `**` between `*`-free, not both empty, parts renders as one plain segment equal to the whole line, asterisks included |
| MarkdownBold.UnclosedNoMatch | components/ProjectDetailComponents.tsx:223 | no match of the expression starts anywhere in `x + "**" + y` when `x` and `y` are `*`-free |
| MarkdownBold.ExampleBoldWord | components/ProjectDetailComponents.tsx:215-240 | `"a **b** c"` renders as plain `"a "`, bold `"b"`, plain `" c"`, without a line break |
| MarkdownBold.ExampleUnterminated | components/ProjectDetailComponents.tsx:215-240 | `"a **b"` renders as the single plain segment `"a **b"` |
| MarkdownBold.ExampleUnmatchedShownBold | components/ProjectDetailComponents.tsx:215-240 | `"**a*b**"` has no match, yet its single piece starts and ends with `**`, so it renders as bold `"a*b"` |
| Diagram.DrawnLinesFrom | components/ProjectDetailComponents.tsx:63-66 | the lines drawn for `connections[k..]` are in range, each copies its connection's ends, their keys are exactly the in-range connections from `k` on, in increasing order |
| Diagram.DrawnLines | components/ProjectDetailComponents.tsx:63-81 | a line is drawn for a connection if and only if both its ends index an existing component; each line joins the components its connection names, once, in list order |
| Diagram.AllInRangeAllDrawn | components/ProjectDetailComponents.tsx:64-66 | when every connection is in range, none is skipped |
| Diagram.BoxRows | components/ProjectDetailComponents.tsx:86 | a box has one text row per space-separated word (spaces plus one), and the rows joined with spaces give back the label |
| Diagram.BoxHeight | components/ProjectDetailComponents.tsx:45-48 | the box height is 8 for a one-word label and `3 * spaces + 5` otherwise, so never below 8 or below `3 * rows + 2` |
| Projects.GetProjectBySlug | data/projects.ts:665-667 | a returned record has the requested slug and is in the table; nothing is returned exactly when no record has that slug |
| Projects.FirstMatchReturned | data/projects.ts:666 | when several records share a slug, the first of them in table order is returned |
| Projects.SlugsDistinct | data/projects.ts:42-663 | the six slugs are pairwise distinct |
| Projects.OwnSlugFindsRecord | data/projects.ts:665-667 | looking up a record's own slug returns that record |
| Projects.ConnectionsInRange | data/projects.ts:42-663 | every diagram connection of every record has both ends indexing that record's component list |
| Projects.EveryConnectionDrawn | components/ProjectDetailComponents.tsx:63-66 | every record's diagram draws all of its connections |
| Projects.ProjectRoute | components/Navbar.tsx:73 | a detail route starts with `/projects/` and the rest of it is the slug |
| Projects.RouteSlug | components/ProjectCardCarousel.tsx:35 | a slug read from a path gives that path back when re-inserted into `/projects/{slug}` |
| Projects.RouteRoundTrip | components/ProjectCardCarousel.tsx:35 | reading the slug back from `/projects/{slug}` gives the slug |
| Navbar.Toggle | components/Navbar.tsx:214 | `toggleTheme` always changes the theme |
| Navbar.ApplyAction | components/Navbar.tsx:129-130 | after a Light/Dark action the theme is the chosen mode; a theme already in that mode is kept, any other is toggled |
| Navbar.ApplyActionIdempotent | components/Navbar.tsx:129-130 | running the same Light/Dark action twice is the same as running it once |
| Navbar.StaleApplyAction | components/Navbar.tsx:129-142 | an action built while the theme was `captured` and run when it is `current` behaves as the intended action when the two agree, and reaches the chosen mode if and only if they agree |
| Navbar.StaleActionMissesMode | components/Navbar.tsx:129-142 | choosing Light with an action built under Light, after the theme became Dark, leaves the theme Dark |
| Navbar.ProjectLinks | components/Navbar.tsx:71-74 | one entry per project record, in order, labelled with its title and linking to `/projects/{slug}` |
| Navbar.ActiveMenuItem | components/Navbar.tsx:121 | the active item is a menu item whose label equals the hovered value; there is none exactly when no label equals it |
| Navbar.CurrentSubmenu | components/Navbar.tsx:137-142 | the theme sentinel shows the theme columns; any other shown submenu belongs to a menu item whose label is the hovered value |
| Navbar.DropdownVisible | components/Navbar.tsx:244 | bridge, backdrop and panel show only for a truthy hovered value; always for the theme sentinel; otherwise only when the hovered value names a menu item that has a submenu |
| Navbar.ShouldAnimate | components/Navbar.tsx:144 | the panel fades in only when the previous hovered value is falsy, and, the test being `=== null`, not for the empty string |
| Navbar.ShownColumns | components/Navbar.tsx:296 | columns are laid out only when the hovered value is truthy, and then they are the current submenu |
| Navbar.MenuLabels | components/Navbar.tsx:37-119 | the menu labels are non-empty, pairwise distinct, and none is the theme sentinel |
| Navbar.HoverItemShowsItsSubmenu | components/Navbar.tsx:121-142 | hovering a menu item makes it the active item and shows exactly its submenu |
| Navbar.HoverElsewhereShowsNothing | components/Navbar.tsx:137-142 | a hovered value that is neither the sentinel nor a label shows no submenu and hides bridge, backdrop and panel |
| Navbar.VisibleIffShown | components/Navbar.tsx:244-296 | the shared bridge/backdrop/panel condition holds if and only if the panel has columns to lay out |
| Navbar.ClassifyEntry | components/Navbar.tsx:322-349 | an entry with an action is a button; otherwise an `href` starting with `http` or `mailto` is an anchor, opened in a new tab if and only if it is not a `mailto`; anything else is an in-app link to `href`, or to `#` when that is empty |
| Navbar.ThemeColumnButtons | components/Navbar.tsx:123-134 | the theme submenu is one column of two buttons, Light then Dark |
| Navbar.MenuEntriesHaveNoAction | components/Navbar.tsx:37-119 | no entry of a top-level menu item carries an action |
| Navbar.ActionShownOnlyForTheme | components/Navbar.tsx:322-328 | an action button is on screen only while the theme sentinel is hovered |
| Navbar.ProjectsColumnLinks | components/Navbar.tsx:69-75 | the Projects column lists every record in order, titled with its title, as an in-app link whose slug finds that record |
| Navbar.NavbarState.constructor | components/Navbar.tsx:13-15 | the bar mounts with nothing hovered, nothing previous and the mobile menu closed |
| Navbar.NavbarState.SettleEffect | components/Navbar.tsx:29-35 | the effect leaves `hovered` alone and makes `prev` equal to it |
| Navbar.NavbarState.EnterItem | components/Navbar.tsx:187-191 | entering an item hovers its label and moves the previously hovered value into `prev` |
| Navbar.NavbarState.EnterTheme | components/Navbar.tsx:207-211 | entering the theme icon hovers the sentinel and moves the previously hovered value into `prev`; the theme captured by the theme submenu is renewed only when the sentinel was not already hovered |
| Navbar.NavbarState.EnterKeepAlive | components/Navbar.tsx:156-160 | entering the bar, bridge or panel never changes `hovered`, copies it into `prev` when truthy, and so changes nothing once settled |
| Navbar.NavbarState.LeaveAll | components/Navbar.tsx:149-152 | leaving the outer region clears `hovered` and `prev` |
| Navbar.NavbarState.ClickActionEntry | components/Navbar.tsx:324-328 | clicking an action button runs the action captured by the memoised submenu against the current theme and clears `hovered`; the theme becomes the chosen mode whenever it has not changed since the submenu was built |
| Navbar.NavbarState.ClickThemeIcon | components/Navbar.tsx:214 | clicking the theme icon toggles the theme and leaves the hover state alone |
| Navbar.NavbarState.ToggleMobileMenu | components/Navbar.tsx:229 | the mobile button flips `mobileMenuOpen` |
| Navbar.NavbarState.CloseMobileMenu | components/Navbar.tsx:379 | a mobile menu link closes the menu |
| Navbar.HoverScenario | components/Navbar.tsx:144 | entering About from nothing animates; swapping straight to Projects shows its submenu without animating; after leaving nothing is shown and the next entry animates |
| Navbar.StaleThemeScenario | components/Navbar.tsx:129-142 | from Light: hover the theme icon, click it (now Dark), move through bridge and panel, and choose Light Mode; the theme is still Dark |
| Navbar.ThemeScenario | components/Navbar.tsx:129-130 | choosing Dark twice from the theme panel leaves the theme dark both times and closes the panel |
| ScrollDom.ArrowsShown | components/ProjectCardCarousel.tsx:93 | the arrow buttons are hidden exactly for an empty or one-element list |
| ScrollDom.Signed | components/ProjectCardCarousel.tsx:17 | left scrolls by `-step`, right by `+step` |
| ScrollDom.LeftRightCancel | components/ProjectCardCarousel.tsx:17 | a left delta and a right delta of the same step add to zero |
| ScrollDom.ScrollContainer.ScrollBy | components/ProjectCardCarousel.tsx:17 | `scrollBy` appends its delta to the log and moves the net offset by that delta |
| ProjectCarousel.Step | components/ProjectCardCarousel.tsx:14-16 | the step is the first card's width plus 20, or 0.85 times `clientWidth` when there is no card |
| ProjectCarousel.ScrollProjects | components/ProjectCardCarousel.tsx:11-18 | no container means no scroll; otherwise exactly one scroll of one signed step |
| ProjectCarousel.LeftThenRight | components/ProjectCardCarousel.tsx:17 | a left click then a right click issue two scrolls and leave the net offset unchanged |
| ProjectCarousel.CardHref | components/ProjectCardCarousel.tsx:35 | a card links to the route whose slug is the card's id |
| ProjectCarousel.ShownTags | components/ProjectCardCarousel.tsx:67 | a card shows its first three tags, or all of them when it has fewer |
| ProjectCarousel.CardLinksResolve | components/ProjectCardCarousel.tsx:35 | every card's link finds the detail record whose slug is the card's id |
| ProjectCarousel.CarouselContents | components/ProjectCardCarousel.tsx:93 | the six cards make the arrows appear, and no card shows more than three tags |
| HomePage.Step | app/page.tsx:16-18 | the step is the first card's width plus 24, or `clientWidth` when there is no card |
| HomePage.ScrollHighlights | app/page.tsx:13-20 | no container means no scroll; otherwise exactly one scroll of one signed step |
| HomePage.RightThenLeft | app/page.tsx:19 | with 800-wide cards, right then left scrolls by +824 then -824, for a net of zero |
| HomePage.HighlightArrowsShown | app/page.tsx:262 | the four highlight images make the arrows appear |

## Findings

| source | as written | input that shows it | evidently intended | confidence | as-written member | corrected member |
|---|---|---|---|---|---|---|
| components/Navbar.tsx:129-142 | `currentSubmenu` is memoised on `[hoveredItem, activeMenuItem]`, so while "Theme" stays hovered the Light/Dark actions keep the `theme` of the render where the hover began | start Light; hover the theme icon; click it (theme Dark); move through bridge and panel; click "Light Mode" | the theme becomes Light | medium, not executed; `ThemeProvider` is not part of this model, so what a stale `toggleTheme` does is inferred | Navbar.StaleThemeScenario | Navbar.ApplyAction |

`Navbar.StaleThemeScenario` and `Navbar.StaleActionMissesMode` show the
stale action missing the chosen mode. `Navbar.ApplyAction` is the action
as intended: it always reaches the chosen mode. `Navbar.StaleApplyAction`
proves that it agrees with the stale action whenever the captured theme
is the current one. `NavbarState.ClickActionEntry` models the code as
written, and it reaches the chosen mode under that same condition.

## Left out

- Animations: the framer-motion values, delays and durations. They are cosmetic and use floating point. `shouldAnimate` is modelled only as the boolean it is.
- The YouTube embed and its global ready callback in `app/page.tsx` and `types/youtube.d.ts`. They are a foreign script and browser globals.
- The window scroll listener and the `scrolled` flag in the navbar. This is DOM event plumbing with no effect on the menu.
- Theme persistence and OS-preference detection. `ThemeProvider` is not part of this model, so the theme is an abstract two-valued field that `toggleTheme` flips.
- The diagram box width `max(20, len * 1.8)` and all SVG coordinates. They are floating-point layout.
- The prose and code-sample fields of the project records. A record keeps its slug, its title, its component labels and its connections.
- Card titles, descriptions and icons, and the highlight texts. Only the card ids and tags, and the image list, feed the logic.
- Native smooth scrolling and clamping at the scroll ends. These are browser behaviour, so only the issued delta is recorded.
- Which element `querySelector` finds, and its `offsetWidth`. They are inputs: the container's `firstCardWidth`.
- React scheduling between a commit and its passive effect. The handlers require `Settled()`, so an event that arrives before the effect has run is not modelled.
- The detail page's `notFound` path and its rendering (`app/projects/[slug]/page.tsx`). That file is a caller; only the route shape `/projects/{slug}` is modelled.
- Layout-only files: `tailwind.config.ts`, `app/layout.tsx`, `components/BentoGrid.tsx`, `components/Card.tsx`.
- Js.Slice: positions are integers only. JavaScript would also truncate non-integer positions, which the code never passes.
- Diagram.DrawnLines: indices are integers only. A fractional or non-numeric index, also skipped by JavaScript, does not occur in the table.
- ProjectCarousel.Step: the source computes `clientWidth * 0.85` in binary floating point, while the model uses the exact real 0.85 times the width.
- Navbar.StaleApplyAction: assumes a stale `toggleTheme` still flips the theme that is current at click time. `ThemeProvider` is not part of this model.
- MarkdownBold.SplitFrom and MarkdownBold.SplitLine carry no contract of their own. What they promise is stated by `SplitFromLossless`, `SplitLineLossless` and `SplitLineCharacterized`.
