/**
 * The navigation bar: its menu table, the views derived from the hover
 * state (which submenu is shown, whether the dropdown is visible, whether
 * it animates in, how each entry renders), the two Light/Dark actions,
 * and the hover/mobile/theme state that the event handlers and the
 * post-render effect rewrite.
 */
module Navbar {
  import opened Wrappers
  import opened Js
  import opened Projects

  /** The site theme, an abstract two-valued setting that `toggleTheme` flips. */
  datatype Theme = Light | Dark

  /** `toggleTheme`. */
  function Toggle(t: Theme): (r: Theme)
    ensures r != t
  {
    if t == Light then Dark else Light
  }

  /** The two entries of the theme column and the mode each one chooses. */
  datatype ThemeAction = ChooseLight | ChooseDark

  function Target(a: ThemeAction): Theme
  {
    if a == ChooseLight then Light else Dark
  }

  /**
   * `() => theme !== "light" && toggleTheme()` (and its dark twin): the
   * theme ends in the chosen mode, and a theme already in it is kept.
   */
  function ApplyAction(a: ThemeAction, t: Theme): (r: Theme)
    ensures r == Target(a)
    ensures t == Target(a) ==> r == t
    ensures t != Target(a) ==> r == Toggle(t)
  {
    if t != Target(a) then Toggle(t) else t
  }

  /**
   * A Light/Dark action built in a render whose theme was `captured` and
   * run when the theme is `current`: it tests the captured theme and
   * toggles the current one. It reaches the chosen mode exactly when the
   * theme has not changed since the action was built.
   */
  function StaleApplyAction(a: ThemeAction, captured: Theme, current: Theme): (r: Theme)
    ensures captured == current ==> r == ApplyAction(a, current)
    ensures r == Target(a) <==> captured == current
  {
    if captured != Target(a) then Toggle(current) else current
  }

  /** Choosing Light with an action built while the theme was Light, after it became Dark, keeps Dark. */
  lemma StaleActionMissesMode()
    ensures StaleApplyAction(ChooseLight, Light, Dark) == Dark
  {
  }

  /** Choosing the same mode twice is the same as choosing it once. */
  lemma ApplyActionIdempotent(a: ThemeAction, t: Theme)
    ensures ApplyAction(a, ApplyAction(a, t)) == ApplyAction(a, t)
  {
  }

  /** A submenu entry: its name, its `href`, and the theme action it runs, if any. */
  datatype Entry = Entry(name: string, href: string, action: Option<ThemeAction>)

  /** A submenu column: a title over a list of entries. */
  datatype Column = Column(title: string, entries: seq<Entry>)

  /** A top-level menu item; `submenu` is `None` for an item without one. */
  datatype MenuItem = MenuItem(name: string, href: string, submenu: Option<seq<Column>>)

  const DriveUrl := "https://drive.google.com/file/d/1A_Axi5jiqOgkQX29WL8iK33kjys2O1V7/view?usp=sharing"

  function Link(name: string, href: string): Entry
  {
    Entry(name, href, None)
  }

  /** `details.map(...)`: one entry per project record, its title linking to its route. */
  function ProjectLinks(details: seq<ProjectDetail>): (entries: seq<Entry>)
    ensures |entries| == |details|
    ensures forall i :: 0 <= i < |details| ==>
      entries[i] == Link(details[i].title, ProjectRoute(details[i].slug))
  {
    if details == [] then [] else [Link(details[0].title, ProjectRoute(details[0].slug))] + ProjectLinks(details[1..])
  }

  /** The "Projects" column: one entry per project record, in table order. */
  const ProjectEntries: seq<Entry> := ProjectLinks(ProjectDetails)

  const AboutItem := MenuItem("About", "#about", Some([
    Column("Explore", [Link("Overview", DriveUrl), Link("Skills", DriveUrl), Link("Education", DriveUrl)]),
    Column("Background", [Link("Experience", DriveUrl), Link("Achievements", DriveUrl)])]))

  const ProjectsItem := MenuItem("Projects", "#projects", Some([
    Column("All Projects", [Link("View All", "#projects")]),
    Column("Projects", ProjectEntries)]))

  const ExperienceItem := MenuItem("Experience", "#experience", Some([
    Column("Professional", [Link("Work History", DriveUrl), Link("Internships", DriveUrl)]),
    Column("Achievements", [Link("Notable Work", DriveUrl), Link("Contributions", DriveUrl)])]))

  const ContactItem := MenuItem("Contact", "#contact", Some([
    Column("Connect", [
      Link("Email", "mailto:dck.alx@gmail.com"),
      Link("LinkedIn", "https://www.linkedin.com/in/dongckim99/"),
      Link("GitHub", "https://github.com/Dongckim")]),
    Column("Resources", [Link("Resume", DriveUrl), Link("XR Portfolio", "https://dongchan.xyz")])]))

  /** `menuItems`, in display order. */
  const MenuItems: seq<MenuItem> := [AboutItem, ProjectsItem, ExperienceItem, ContactItem]

  /** The hover value the theme icon sets, and the theme submenu it opens. */
  const ThemeLabel := "Theme"

  const ThemeColumns: seq<Column> := [
    Column("Appearance", [
      Entry("Light Mode", "#", Some(ChooseLight)),
      Entry("Dark Mode", "#", Some(ChooseDark))])
  ]

  /** JavaScript truthiness of a `string | null`: set and non-empty. */
  predicate Truthy(h: Option<string>)
  {
    h.Some? && h.value != ""
  }

  /** `activeMenuItem`: the first menu item whose name equals the hovered value. */
  function ActiveMenuItem(hovered: Option<string>): (r: Option<MenuItem>)
    ensures r.Some? ==> r.value in MenuItems && hovered == Some(r.value.name)
    ensures r.None? <==> forall i :: 0 <= i < |MenuItems| ==> hovered != Some(MenuItems[i].name)
  {
    Find(MenuItems, (item: MenuItem) => hovered == Some(item.name))
  }

  /** `currentSubmenu`: the theme columns for the theme sentinel, else the active item's submenu. */
  function CurrentSubmenu(hovered: Option<string>): (r: Option<seq<Column>>)
    ensures hovered == Some(ThemeLabel) ==> r == Some(ThemeColumns)
    ensures hovered != Some(ThemeLabel) && r.Some? ==>
      exists i :: 0 <= i < |MenuItems| && hovered == Some(MenuItems[i].name) && r == MenuItems[i].submenu
  {
    if hovered == Some(ThemeLabel) then Some(ThemeColumns)
    else match ActiveMenuItem(hovered)
      case None => None
      case Some(item) => item.submenu
  }

  /**
   * The one condition under which the bridge, the backdrop and the
   * dropdown panel are all rendered.
   */
  predicate DropdownVisible(hovered: Option<string>)
    ensures DropdownVisible(hovered) ==> Truthy(hovered)
    ensures hovered == Some(ThemeLabel) ==> DropdownVisible(hovered)
    ensures DropdownVisible(hovered) && hovered != Some(ThemeLabel) ==>
      ActiveMenuItem(hovered).Some? && ActiveMenuItem(hovered).value.submenu.Some?
  {
    (Truthy(hovered) && ActiveMenuItem(hovered).Some? && ActiveMenuItem(hovered).value.submenu.Some?)
    || hovered == Some(ThemeLabel)
  }

  /** The columns laid out inside the panel: `currentSubmenu && hoveredItem`. */
  function ShownColumns(hovered: Option<string>): (r: Option<seq<Column>>)
    ensures r.Some? ==> Truthy(hovered) && r == CurrentSubmenu(hovered)
    ensures r.None? ==> !Truthy(hovered) || CurrentSubmenu(hovered).None?
  {
    if CurrentSubmenu(hovered).Some? && Truthy(hovered) then CurrentSubmenu(hovered) else None
  }

  /** `shouldAnimate`: the dropdown fades in only when nothing was hovered before. */
  predicate ShouldAnimate(prev: Option<string>)
    ensures ShouldAnimate(prev) ==> !Truthy(prev)
    ensures prev == Some("") ==> !ShouldAnimate(prev)
  {
    prev == None
  }

  /** The menu labels are non-empty, pairwise distinct, and none is the theme sentinel. */
  lemma MenuLabels()
    ensures forall i :: 0 <= i < |MenuItems| ==> MenuItems[i].name != "" && MenuItems[i].name != ThemeLabel
    ensures forall i, j :: 0 <= i < j < |MenuItems| ==> MenuItems[i].name != MenuItems[j].name
  {
  }

  /** Hovering a menu item shows exactly that item's submenu. */
  lemma HoverItemShowsItsSubmenu(i: nat)
    requires i < |MenuItems|
    ensures ActiveMenuItem(Some(MenuItems[i].name)) == Some(MenuItems[i])
    ensures CurrentSubmenu(Some(MenuItems[i].name)) == MenuItems[i].submenu
    ensures ShownColumns(Some(MenuItems[i].name)) == MenuItems[i].submenu
  {
    MenuLabels();
    FindFirst(MenuItems, (item: MenuItem) => Some(MenuItems[i].name) == Some(item.name), i);
  }

  /** A hovered value that is neither the sentinel nor a menu name shows nothing and hides the panel. */
  lemma HoverElsewhereShowsNothing(hovered: Option<string>)
    requires hovered != Some(ThemeLabel)
    requires forall i :: 0 <= i < |MenuItems| ==> hovered != Some(MenuItems[i].name)
    ensures CurrentSubmenu(hovered) == None && ShownColumns(hovered) == None
    ensures !DropdownVisible(hovered)
  {
  }

  /**
   * The panel is rendered exactly when it has columns to lay out, so the
   * bridge, the backdrop and the panel never show an empty dropdown.
   */
  lemma VisibleIffShown(hovered: Option<string>)
    ensures DropdownVisible(hovered) <==> ShownColumns(hovered).Some?
  {
    MenuLabels();
    if ActiveMenuItem(hovered).Some? {
      var item := ActiveMenuItem(hovered).value;
      assert item.name != "";
    }
  }

  /** How a submenu entry renders. */
  datatype EntryView =
    | ActionButton(action: ThemeAction)
    | ExternalAnchor(href: string, newTab: bool)
    | InternalLink(href: string)

  /**
   * An entry with an action is a button; an `href` beginning with `http`
   * or `mailto` is a plain anchor, opened in a new tab unless it is a
   * `mailto`; anything else is an in-app link to its `href`, or to `#`
   * when that is empty.
   */
  function ClassifyEntry(e: Entry): (v: EntryView)
    ensures v.ActionButton? <==> e.action.Some?
    ensures v.ActionButton? ==> v.action == e.action.value
    ensures v.ExternalAnchor? <==>
      e.action.None? && (StartsWith(e.href, "http") || StartsWith(e.href, "mailto"))
    ensures v.ExternalAnchor? ==> v.href == e.href && (v.newTab <==> !StartsWith(e.href, "mailto"))
    ensures v.InternalLink? ==> v.href == (if e.href == "" then "#" else e.href)
  {
    if e.action.Some? then ActionButton(e.action.value)
    else if e.href != "" && (StartsWith(e.href, "http") || StartsWith(e.href, "mailto")) then
      ExternalAnchor(e.href, !StartsWith(e.href, "mailto"))
    else InternalLink(if e.href == "" then "#" else e.href)
  }

  /** The theme column holds the two mode buttons. */
  lemma ThemeColumnButtons()
    ensures |ThemeColumns| == 1 && |ThemeColumns[0].entries| == 2
    ensures ClassifyEntry(ThemeColumns[0].entries[0]) == ActionButton(ChooseLight)
    ensures ClassifyEntry(ThemeColumns[0].entries[1]) == ActionButton(ChooseDark)
  {
  }

  /** No menu item's entry carries an action: action buttons appear only under the theme icon. */
  lemma MenuEntriesHaveNoAction()
    ensures forall i, c, k ::
      0 <= i < |MenuItems| && MenuItems[i].submenu.Some? &&
      0 <= c < |MenuItems[i].submenu.value| && 0 <= k < |MenuItems[i].submenu.value[c].entries| ==>
      MenuItems[i].submenu.value[c].entries[k].action == None
  {
  }

  /** An action button is on screen only while the theme sentinel is hovered. */
  lemma ActionShownOnlyForTheme(hovered: Option<string>, c: nat, k: nat)
    requires ShownColumns(hovered).Some?
    requires c < |ShownColumns(hovered).value| && k < |ShownColumns(hovered).value[c].entries|
    requires ShownColumns(hovered).value[c].entries[k].action.Some?
    ensures hovered == Some(ThemeLabel)
  {
    MenuEntriesHaveNoAction();
  }

  /**
   * The "Projects" column lists every project record in order, each as an
   * in-app link to `/projects/{slug}` whose slug finds that very record.
   */
  lemma ProjectsColumnLinks(i: nat)
    requires i < |ProjectDetails|
    ensures MenuItems[1].submenu.Some? && |MenuItems[1].submenu.value| == 2
    ensures |MenuItems[1].submenu.value[1].entries| == |ProjectDetails|
    ensures MenuItems[1].submenu.value[1].entries[i].name == ProjectDetails[i].title
    ensures ClassifyEntry(MenuItems[1].submenu.value[1].entries[i]) == InternalLink(ProjectRoute(ProjectDetails[i].slug))
    ensures GetProjectBySlug(RouteSlug(ProjectRoute(ProjectDetails[i].slug)).value) == Some(ProjectDetails[i])
  {
    var e := ProjectEntries[i];
    assert e.href == ProjectRoute(ProjectDetails[i].slug);
    assert e.href[0] == '/';
    assert !StartsWith(e.href, "http") && !StartsWith(e.href, "mailto");
    RouteRoundTrip(ProjectDetails[i].slug);
    OwnSlugFindsRecord(i);
  }

  /** The region a keep-alive `onMouseEnter` handler is attached to. */
  datatype Region = NavBar | Bridge | Dropdown

  /**
   * The navigation bar's state cells. `effectDeps` is the `hoveredItem`
   * value the post-render effect last ran with; the effect is pending
   * while it differs from `hovered`. `menuTheme` is the theme of the
   * render that last rebuilt `currentSubmenu` for the theme sentinel: the
   * memo depends only on `hoveredItem` and `activeMenuItem`, and the
   * latter is `undefined` throughout a theme hover, so the Light/Dark
   * closures keep the theme of the render in which that hover began.
   */
  class NavbarState {
    var hovered: Option<string>
    var prev: Option<string>
    var effectDeps: Option<string>
    var mobileMenuOpen: bool
    var theme: Theme
    var menuTheme: Theme

    /** Once the effect has caught up with `hovered`, `prev` equals `hovered`. */
    ghost predicate Valid()
      reads this
    {
      effectDeps == hovered ==> prev == hovered
    }

    /** No effect run is pending. */
    predicate Settled()
      reads this
    {
      effectDeps == hovered
    }

    /** The mounted bar: nothing hovered, menu closed; the mount-time effect has run. */
    constructor(initialTheme: Theme)
      ensures hovered == None && prev == None && effectDeps == None
      ensures !mobileMenuOpen && theme == initialTheme && menuTheme == initialTheme
      ensures Valid() && Settled()
    {
      hovered := None;
      prev := None;
      effectDeps := None;
      mobileMenuOpen := false;
      theme := initialTheme;
      menuTheme := initialTheme;
    }

    /** The effect on `[hoveredItem]`: when `hovered` changed, copy it into `prev`. */
    method SettleEffect()
      requires Valid()
      modifies this
      ensures menuTheme == old(menuTheme)
      ensures hovered == old(hovered) && prev == hovered && effectDeps == hovered
      ensures mobileMenuOpen == old(mobileMenuOpen) && theme == old(theme)
      ensures Valid() && Settled()
    {
      if hovered != effectDeps {
        if hovered != None {
          prev := hovered;
        } else {
          prev := None;
        }
        effectDeps := hovered;
      }
    }

    /** `onMouseEnter` of top-level item `i`: hover it and remember what was hovered before. */
    method EnterItem(i: nat)
      requires i < |MenuItems|
      requires Valid() && Settled()
      modifies this
      ensures menuTheme == old(menuTheme)
      ensures hovered == Some(MenuItems[i].name) && prev == old(hovered)
      ensures effectDeps == old(effectDeps) && mobileMenuOpen == old(mobileMenuOpen) && theme == old(theme)
      ensures Valid()
    {
      var previousItem := hovered;
      hovered := Some(MenuItems[i].name);
      prev := previousItem;
    }

    /** `onMouseEnter` of the theme icon: the same, with the theme sentinel. */
    method EnterTheme()
      requires Valid() && Settled()
      modifies this
      ensures hovered == Some(ThemeLabel) && prev == old(hovered)
      ensures menuTheme == if old(hovered) == Some(ThemeLabel) then old(menuTheme) else theme
      ensures effectDeps == old(effectDeps) && mobileMenuOpen == old(mobileMenuOpen) && theme == old(theme)
      ensures Valid()
    {
      if hovered != Some(ThemeLabel) {
        menuTheme := theme;
      }
      var previousItem := hovered;
      hovered := Some(ThemeLabel);
      prev := previousItem;
    }

    /**
     * `onMouseEnter` of the bar, the bridge or the panel (the last two
     * exist only while the dropdown is visible): `hovered` stays, and is
     * copied into `prev` when set, so nothing changes once settled.
     */
    method EnterKeepAlive(region: Region)
      requires region != NavBar ==> DropdownVisible(hovered)
      requires Valid() && Settled()
      modifies this
      ensures menuTheme == old(menuTheme)
      ensures hovered == old(hovered)
      ensures prev == (if Truthy(old(hovered)) then old(hovered) else old(prev))
      ensures effectDeps == old(effectDeps) && mobileMenuOpen == old(mobileMenuOpen) && theme == old(theme)
      ensures unchanged(this)
      ensures Valid() && Settled()
    {
      if Truthy(hovered) {
        prev := hovered;
      }
    }

    /** `onMouseLeave` of the outer region: clear both hover cells. */
    method LeaveAll()
      requires Valid() && Settled()
      modifies this
      ensures menuTheme == old(menuTheme)
      ensures hovered == None && prev == None
      ensures effectDeps == old(effectDeps) && mobileMenuOpen == old(mobileMenuOpen) && theme == old(theme)
      ensures Valid()
    {
      hovered := None;
      prev := None;
    }

    /**
     * `onClick` of an entry with an action (entry `k` of shown column
     * `c`): run the memoised action, then close the dropdown. The chosen
     * mode is reached when the theme has not changed since the theme
     * hover began.
     */
    method ClickActionEntry(c: nat, k: nat)
      requires ShownColumns(hovered).Some?
      requires c < |ShownColumns(hovered).value| && k < |ShownColumns(hovered).value[c].entries|
      requires ShownColumns(hovered).value[c].entries[k].action.Some?
      requires Valid() && Settled()
      modifies this
      ensures menuTheme == old(menuTheme)
      ensures theme == StaleApplyAction(old(ShownColumns(hovered).value[c].entries[k].action.value), old(menuTheme), old(theme))
      ensures old(menuTheme) == old(theme) ==> theme == Target(old(ShownColumns(hovered).value[c].entries[k].action.value))
      ensures hovered == None && prev == old(prev)
      ensures effectDeps == old(effectDeps) && mobileMenuOpen == old(mobileMenuOpen)
      ensures Valid()
    {
      var a := ShownColumns(hovered).value[c].entries[k].action.value;
      ActionShownOnlyForTheme(hovered, c, k);
      theme := StaleApplyAction(a, menuTheme, theme);
      hovered := None;
    }

    /** `onClick` of the theme icon: `toggleTheme`. */
    method ClickThemeIcon()
      requires Valid() && Settled()
      modifies this
      ensures menuTheme == old(menuTheme)
      ensures theme == Toggle(old(theme))
      ensures hovered == old(hovered) && prev == old(prev) && effectDeps == old(effectDeps)
      ensures mobileMenuOpen == old(mobileMenuOpen)
      ensures Valid() && Settled()
    {
      theme := Toggle(theme);
    }

    /** `onClick` of the mobile menu button. */
    method ToggleMobileMenu()
      requires Valid() && Settled()
      modifies this
      ensures menuTheme == old(menuTheme)
      ensures mobileMenuOpen == !old(mobileMenuOpen)
      ensures hovered == old(hovered) && prev == old(prev) && effectDeps == old(effectDeps)
      ensures theme == old(theme)
      ensures Valid() && Settled()
    {
      mobileMenuOpen := !mobileMenuOpen;
    }

    /** `onClick` of a link in the open mobile menu: close it. */
    method CloseMobileMenu()
      requires mobileMenuOpen
      requires Valid() && Settled()
      modifies this
      ensures menuTheme == old(menuTheme)
      ensures !mobileMenuOpen
      ensures hovered == old(hovered) && prev == old(prev) && effectDeps == old(effectDeps)
      ensures theme == old(theme)
      ensures Valid() && Settled()
    {
      mobileMenuOpen := false;
    }
  }

  /**
   * Entering "About" from nothing shows its submenu animated; sliding
   * straight to "Projects" swaps to that submenu without replaying the
   * animation; after leaving, nothing is shown and the next entry
   * animates again.
   */
  method HoverScenario() returns (first: Option<seq<Column>>, second: Option<seq<Column>>, afterLeave: Option<seq<Column>>,
                                 firstAnimates: bool, swapAnimates: bool, reentryAnimates: bool)
    ensures first == AboutItem.submenu && second == ProjectsItem.submenu && afterLeave == None
    ensures firstAnimates && !swapAnimates && reentryAnimates
  {
    var nav := new NavbarState(Light);
    nav.EnterItem(0);
    HoverItemShowsItsSubmenu(0);
    first, firstAnimates := ShownColumns(nav.hovered), ShouldAnimate(nav.prev);
    nav.SettleEffect();
    nav.EnterItem(1);
    HoverItemShowsItsSubmenu(1);
    second, swapAnimates := ShownColumns(nav.hovered), ShouldAnimate(nav.prev);
    nav.SettleEffect();
    nav.LeaveAll();
    nav.SettleEffect();
    afterLeave := ShownColumns(nav.hovered);
    nav.EnterItem(2);
    reentryAnimates := ShouldAnimate(nav.prev);
  }

  /** Choosing Dark from the theme dropdown twice: dark after the first click, still dark after the second. */
  method ThemeScenario() returns (afterFirst: Theme, afterSecond: Theme, open: Option<string>)
    ensures afterFirst == Dark && afterSecond == Dark && open == None
  {
    var nav := new NavbarState(Light);
    nav.EnterTheme();
    nav.SettleEffect();
    nav.ClickActionEntry(0, 1);
    afterFirst := nav.theme;
    nav.SettleEffect();
    nav.EnterTheme();
    nav.SettleEffect();
    nav.ClickActionEntry(0, 1);
    afterSecond := nav.theme;
    nav.SettleEffect();
    open := nav.hovered;
  }

  /**
   * Toggling the theme with the icon while the theme panel stays open,
   * then choosing Light Mode, leaves the theme dark: the Light closure
   * still sees the light theme of the render where the hover began.
   */
  method StaleThemeScenario() returns (beforeClick: Theme, afterClick: Theme)
    ensures beforeClick == Dark && afterClick == Dark
  {
    var nav := new NavbarState(Light);
    nav.EnterTheme();
    nav.SettleEffect();
    nav.ClickThemeIcon();
    nav.EnterKeepAlive(Bridge);
    nav.EnterKeepAlive(Dropdown);
    beforeClick := nav.theme;
    nav.ClickActionEntry(0, 0);
    afterClick := nav.theme;
  }
}
