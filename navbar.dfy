/** The navigation bar: which navigation link is highlighted, the avatar's
    initials and name, and the two account menus (desktop and mobile), of
    which at most one is open at a time. */
module Navbar {
  import opened Wrappers
  import opened Strings

  // ---------------------------------------------------------------------
  // Active links
  // ---------------------------------------------------------------------

  const ProfileHref := "/profile"

  datatype NavLink = NavLink(name: string, href: string)

  /** `navLinks`. */
  const NavLinks: seq<NavLink> := [
    NavLink("Problems", "/problems"),
    NavLink("Leaderboard", "/leaderboard"),
    NavLink("Profile", ProfileHref)
  ]

  /** `isActiveLink(href)` for the current `location.pathname`. */
  predicate IsActiveLink(pathname: string, href: string) {
    if href == ProfileHref then StartsWith(pathname, ProfileHref)
    else pathname == href || StartsWith(pathname, href + "/")
  }

  /** Apart from the profile link, a link is active exactly on its own route
      and on the routes below it: the path starts with the link and ends
      there or continues with `/`. */
  lemma ActiveLinkIff(pathname: string, href: string)
    requires href != ProfileHref
    ensures IsActiveLink(pathname, href) <==>
      StartsWith(pathname, href) && (|pathname| == |href| || pathname[|href|] == '/')
  {
    var n := |href|;
    if StartsWith(pathname, href) && |pathname| > n && pathname[n] == '/' {
      assert pathname[..n + 1] == pathname[..n] + [pathname[n]];
      assert StartsWith(pathname, href + "/");
    }
    if StartsWith(pathname, href + "/") {
      assert pathname[..n] == pathname[..n + 1][..n];
      assert pathname[n] == pathname[..n + 1][n];
    }
  }

  /** An active link is always a prefix of the path. */
  lemma ActiveIsPrefix(pathname: string, href: string)
    requires IsActiveLink(pathname, href)
    ensures StartsWith(pathname, href)
  {
    if href != ProfileHref {
      ActiveLinkIff(pathname, href);
    }
  }

  /** The profile link matches any path that starts with `/profile`, even
      `/profileX`; other links need a `/` boundary. */
  lemma ActiveLinkBoundaries()
    ensures IsActiveLink("/profileX", ProfileHref)
    ensures IsActiveLink("/problems/two-sum", "/problems")
    ensures !IsActiveLink("/problemsX", "/problems")
  {
    ActiveLinkIff("/problemsX", "/problems");
    ActiveLinkIff("/problems/two-sum", "/problems");
    assert StartsWith("/problems/two-sum", "/problems");
  }

  /** Two links that differ at a position both paths cover exclude each other. */
  lemma DivergingPrefixesExclusive(pathname: string, a: string, b: string, k: nat)
    requires k < |a| && k < |b| && a[k] != b[k]
    ensures !(StartsWith(pathname, a) && StartsWith(pathname, b))
  {
    if StartsWith(pathname, a) {
      assert pathname[k] == a[k] by {
        assert pathname[..|a|][k] == pathname[k];
      }
    }
  }

  /** Whatever the path, at most one of the navigation links is highlighted. */
  lemma AtMostOneActiveLink(pathname: string, i: nat, j: nat)
    requires i < j < |NavLinks|
    ensures !(IsActiveLink(pathname, NavLinks[i].href) && IsActiveLink(pathname, NavLinks[j].href))
  {
    var a, b := NavLinks[i].href, NavLinks[j].href;
    var k := if i == 0 && j == 2 then 4 else 1;
    assert k < |a| && k < |b| && a[k] != b[k];
    DivergingPrefixesExclusive(pathname, a, b, k);
    if IsActiveLink(pathname, a) {
      ActiveIsPrefix(pathname, a);
    }
    if IsActiveLink(pathname, b) {
      ActiveIsPrefix(pathname, b);
    }
  }

  // ---------------------------------------------------------------------
  // Avatar initials and name
  // ---------------------------------------------------------------------

  /** `n[0]` as `join` renders it: a missing first character adds nothing. */
  function Head(word: string): (r: string)
    ensures |r| <= 1
    ensures r == [] <==> word == []
  {
    if word == [] then "" else [word[0]]
  }

  /** `parts.map((n) => n[0]).join("")`. */
  function FirstChars(parts: seq<string>): string
    decreases |parts|
  {
    if parts == [] then "" else Head(parts[0]) + FirstChars(parts[1..])
  }

  /** Reference definition: the characters of `s` that are not a space and
      start the string or follow a space, left to right. `atStart` says
      whether the character before `s` was a space (or there was none). */
  function WordStarts(s: string, atStart: bool): string
    decreases |s|
  {
    if s == [] then ""
    else if s[0] == ' ' then WordStarts(s[1..], true)
    else (if atStart then [s[0]] else "") + WordStarts(s[1..], false)
  }

  /** Splitting at spaces and taking each piece's first character picks out
      exactly the word starts; the pieces after the first pick out those not
      at the very beginning. */
  lemma {:induction false} FirstCharsOfSplit(s: string)
    ensures FirstChars(Split(s, ' ')) == WordStarts(s, true)
    ensures FirstChars(Split(s, ' ')[1..]) == WordStarts(s, false)
    decreases |s|
  {
    if s != [] {
      var rest := Split(s[1..], ' ');
      FirstCharsOfSplit(s[1..]);
      if s[0] == ' ' {
        assert Split(s, ' ') == [""] + rest;
        assert ([""] + rest)[1..] == rest;
      } else {
        var parts := [[s[0]] + rest[0]] + rest[1..];
        assert Split(s, ' ') == parts;
        assert parts[1..] == rest[1..];
        assert Head(parts[0]) == [s[0]];
      }
    }
  }

  /** The avatar fallback: the upper-cased first letters of the words of the
      name, or `U` when there is no name. */
  function Initials(name: Option<string>): (r: string)
    ensures name.None? || name.value == "" ==> r == "U"
    ensures name.Some? && name.value != "" ==> r == ToUpper(WordStarts(name.value, true))
    ensures forall i :: 0 <= i < |r| ==> !IsLowerAscii(r[i])
  {
    if name.None? || name.value == "" then "U"
    else
      FirstCharsOfSplit(name.value);
      ToUpper(FirstChars(Split(name.value, ' ')))
  }

  /** A string of spaces has no word starts. */
  lemma {:induction false} NoWordStartsInSpaces(s: string, atStart: bool)
    requires forall i :: 0 <= i < |s| ==> s[i] == ' '
    ensures WordStarts(s, atStart) == ""
    decreases |s|
  {
    if s != [] {
      NoWordStartsInSpaces(s[1..], true);
    }
  }

  /** A name made only of spaces is a present name, so it gets no `U`
      fallback but empty initials. */
  lemma BlankNameHasNoInitials(name: string)
    requires name != ""
    requires forall i :: 0 <= i < |name| ==> name[i] == ' '
    ensures Initials(Some(name)) == ""
  {
    NoWordStartsInSpaces(name, true);
  }

  /** The first characters of non-empty words. */
  function Heads(words: seq<string>): (r: string)
    requires forall i :: 0 <= i < |words| ==> words[i] != ""
    ensures |r| == |words|
    ensures forall i :: 0 <= i < |words| ==> r[i] == words[i][0]
    decreases |words|
  {
    if words == [] then "" else [words[0][0]] + Heads(words[1..])
  }

  lemma {:induction false} FirstCharsOfWords(words: seq<string>)
    requires forall i :: 0 <= i < |words| ==> words[i] != ""
    ensures FirstChars(words) == Heads(words)
    decreases |words|
  {
    if words != [] {
      FirstCharsOfWords(words[1..]);
    }
  }

  /** Words separated by single spaces get one initial per word: the
      capital of its first letter. */
  lemma InitialsOfWords(words: seq<string>)
    requires |words| >= 1
    requires forall i :: 0 <= i < |words| ==> words[i] != "" && ' ' !in words[i]
    ensures Initials(Some(Join(words, ' '))) == ToUpper(Heads(words))
  {
    var name := Join(words, ' ');
    SplitJoin(words, ' ');
    FirstCharsOfWords(words);
    FirstCharsOfSplit(name);
    assert |name| >= |words[0]| by {
      if |words| > 1 {
        assert name == words[0] + [' '] + Join(words[1..], ' ');
      }
    }
  }

  /** `Ada Lovelace` is shown as `AL`. */
  lemma InitialsExample()
    ensures Initials(Some("Ada Lovelace")) == "AL"
  {
    var words := ["Ada", "Lovelace"];
    assert Join(words, ' ') == "Ada Lovelace";
    InitialsOfWords(words);
    assert Heads(words) == "AL";
  }

  /** `user?.name || "User"`: the name shown in the menu header. */
  function DisplayName(name: Option<string>): (r: string)
    ensures r != ""
    ensures name.Some? && name.value != "" ==> r == name.value
    ensures name.None? || name.value == "" ==> r == "User"
  {
    if name.Some? && name.value != "" then name.value else "User"
  }

  /** `user?.name || user?.email || "User"`: the avatar image's alt text. */
  function AvatarAlt(name: Option<string>, email: Option<string>): (r: string)
    ensures r != ""
    ensures name.Some? && name.value != "" ==> r == name.value
    ensures (name.None? || name.value == "") && email.Some? && email.value != "" ==> r == email.value
    ensures (name.None? || name.value == "") && (email.None? || email.value == "") ==> r == "User"
  {
    if name.Some? && name.value != "" then name.value
    else if email.Some? && email.value != "" then email.value
    else "User"
  }

  /** The alt text is the shown name, except for a user without a name but
      with an e-mail address (other than `User`), whose alt text is the
      address. */
  lemma AltDiffersFromNameIff(name: Option<string>, email: Option<string>)
    ensures AvatarAlt(name, email) != DisplayName(name) <==>
      (name.None? || name.value == "") && email.Some? && email.value != "" && email.value != "User"
  {
  }

  /** Only `u` and `U` upper-case to `U`. */
  lemma ToUpperIsU(w: string)
    ensures ToUpper(w) == "U" <==> w == "u" || w == "U"
  {
    if ToUpper(w) == "U" {
      assert |w| == 1 && UpperChar(w[0]) == 'U';
      assert w == [w[0]];
    }
  }

  /** The initials read `U` exactly when the name is missing or empty, or
      it has a single word start and that is `u` or `U`: a user called
      `ursula` looks like one without a name. */
  lemma InitialsAreUIff(name: Option<string>)
    ensures Initials(name) == "U" <==>
      name.None? || name.value == ""
      || WordStarts(name.value, true) == "u" || WordStarts(name.value, true) == "U"
  {
    if name.Some? && name.value != "" {
      ToUpperIsU(WordStarts(name.value, true));
    }
  }

  // ---------------------------------------------------------------------
  // Account menus
  // ---------------------------------------------------------------------

  /** `'mobile' | 'desktop'`; `openDropdown` is `Option<MenuKey>`. */
  datatype MenuKey = Mobile | Desktop

  datatype MenuItem = ChangeTheme | Problems | Leaderboard | MyProfile | Settings | LogOut

  /** What choosing an item asks the rest of the application to do. */
  datatype Effect = Navigate(path: string) | OpenSettings | Logout | ToggleTheme

  /** The items of each menu, top to bottom. */
  function ItemsOf(k: MenuKey): (items: seq<MenuItem>)
    ensures MyProfile in items && Settings in items && LogOut in items
    ensures ChangeTheme in items <==> k == Mobile
  {
    match k
    case Desktop => [MyProfile, Settings, LogOut]
    case Mobile => [ChangeTheme, Problems, Leaderboard, MyProfile, Settings, LogOut]
  }

  function ItemEffect(item: MenuItem): Effect {
    match item
    case ChangeTheme => ToggleTheme
    case Problems => Navigate("/problems")
    case Leaderboard => Navigate("/leaderboard")
    case MyProfile => Navigate(ProfileHref)
    case Settings => OpenSettings
    case LogOut => Logout
  }

  /** The theme item is the only one that can be disabled, and it is while
      the theme transition runs. */
  predicate ItemEnabled(item: MenuItem, isTransitioning: bool) {
    !(item == ChangeTheme && isTransitioning)
  }

  /** Every navigation link can be reached from the mobile menu. */
  lemma MobileMenuCoversNavLinks(i: nat)
    requires i < |NavLinks|
    ensures exists item :: item in ItemsOf(Mobile) && ItemEffect(item) == Navigate(NavLinks[i].href)
  {
    if i == 0 {
      assert Problems in ItemsOf(Mobile) && ItemEffect(Problems) == Navigate(NavLinks[i].href);
    } else if i == 1 {
      assert Leaderboard in ItemsOf(Mobile) && ItemEffect(Leaderboard) == Navigate(NavLinks[i].href);
    } else {
      assert MyProfile in ItemsOf(Mobile) && ItemEffect(MyProfile) == Navigate(NavLinks[i].href);
    }
  }

  /** The navbar's own state: `openDropdown` and `isSettingsModalOpen`. */
  datatype MenuState = MenuState(openDropdown: Option<MenuKey>, settingsOpen: bool)

  /** `open={openDropdown === k}`: the menu `k` is open and its content shown. */
  predicate IsOpen(s: MenuState, k: MenuKey) {
    s.openDropdown == Some(k)
  }

  function Other(k: MenuKey): MenuKey {
    if k == Mobile then Desktop else Mobile
  }

  /** Clicking the trigger of menu `k`: close it when it is open, open it
      (and only it) otherwise. */
  function Click(s: MenuState, k: MenuKey): (r: MenuState)
    ensures IsOpen(r, k) <==> !IsOpen(s, k)
    ensures !IsOpen(r, Other(k))
    ensures r.settingsOpen == s.settingsOpen
  {
    s.(openDropdown := if s.openDropdown == Some(k) then None else Some(k))
  }

  /** `onOpenChange(val)` of menu `k`: open just that menu, or close all. */
  function OpenChange(s: MenuState, k: MenuKey, val: bool): (r: MenuState)
    ensures IsOpen(r, k) <==> val
    ensures !IsOpen(r, Other(k))
    ensures r.settingsOpen == s.settingsOpen
  {
    s.(openDropdown := if val then Some(k) else None)
  }

  /** An item's own `onClick` handler: a disabled item does nothing;
      otherwise its effect is requested, the settings item opens the settings
      modal, and every item but the theme item sets `openDropdown` to null.
      Whatever the dropdown library does on selection besides (such as
      calling `onOpenChange(false)`) is the separate event `OpenChange`. */
  function Choose(s: MenuState, item: MenuItem, isTransitioning: bool): (r: (MenuState, Option<Effect>))
    ensures !ItemEnabled(item, isTransitioning) ==> r == (s, None)
    ensures ItemEnabled(item, isTransitioning) ==> r.1 == Some(ItemEffect(item))
    ensures r.0.settingsOpen <==> s.settingsOpen || (item == Settings && ItemEnabled(item, isTransitioning))
  {
    if !ItemEnabled(item, isTransitioning) then (s, None)
    else
      var withModal := if item == Settings then s.(settingsOpen := true) else s;
      var closed := if item == ChangeTheme then withModal else withModal.(openDropdown := None);
      (closed, Some(ItemEffect(item)))
  }

  /** `handleOpenSettingsModal` from the desktop Settings button beside the
      menu: the modal opens and the menus stay as they are. */
  function OpenSettingsModal(s: MenuState): (r: MenuState)
    ensures r.settingsOpen && r.openDropdown == s.openDropdown
  {
    s.(settingsOpen := true)
  }

  /** `handleCloseSettingsModal`. */
  function CloseSettings(s: MenuState): (r: MenuState)
    ensures !r.settingsOpen && r.openDropdown == s.openDropdown
  {
    s.(settingsOpen := false)
  }

  /** Two clicks on the trigger of an open or closed menu restore it (while
      the other menu is open, the first click switches menus instead). */
  lemma ClickTwice(s: MenuState, k: MenuKey)
    requires !IsOpen(s, Other(k))
    ensures Click(Click(s, k), k) == s
  {
    if s.openDropdown.Some? {
      assert s.openDropdown.value == k;
    }
  }

  /** Opening one menu by its trigger closes the other. */
  lemma ClickSwitchesMenus(s: MenuState, k: MenuKey)
    requires IsOpen(s, Other(k))
    ensures IsOpen(Click(s, k), k) && !IsOpen(Click(s, k), Other(k))
  {
  }

  /** Every item that is not the theme item leaves both menus closed. */
  lemma ItemsCloseMenus(s: MenuState, k: MenuKey, item: MenuItem, isTransitioning: bool)
    requires item in ItemsOf(k) && item != ChangeTheme
    ensures Choose(s, item, isTransitioning).0.openDropdown == None
  {
  }

  /** The mobile theme item changes the theme but leaves the menu as it was. */
  lemma ThemeItemKeepsMenu(s: MenuState)
    ensures Choose(s, ChangeTheme, false) == (s, Some(ToggleTheme))
    ensures Choose(s, ChangeTheme, true) == (s, None)
  {
  }

  /** The theme item's `onKeyDown`: Enter or Space toggles the theme and,
      like its `onClick`, leaves the menu open. The handler itself does not
      look at `isTransitioning`. */
  function ThemeKeyDown(s: MenuState, key: string): (r: (MenuState, Option<Effect>))
    ensures r.0 == s
    ensures r.1.Some? <==> key == "Enter" || key == " "
    ensures r.1.Some? ==> r.1 == Some(ToggleTheme)
  {
    if key == "Enter" || key == " " then (s, Some(ToggleTheme)) else (s, None)
  }

  /** The `disabled` guard covers only the click: while the transition runs
      a click on the theme item does nothing, but Enter still toggles; with
      no transition, Space does what a click does. */
  lemma KeyDownBypassesTransitionGuard(s: MenuState)
    ensures Choose(s, ChangeTheme, true).1 == None
    ensures ThemeKeyDown(s, "Enter").1 == Some(ToggleTheme)
    ensures ThemeKeyDown(s, " ") == Choose(s, ChangeTheme, false)
  {
  }

  /** Opening and closing the settings modal leaves the menus alone. */
  lemma SettingsModalRoundTrip(s: MenuState)
    ensures CloseSettings(OpenSettingsModal(s)) == s.(settingsOpen := false)
    ensures !s.settingsOpen ==> CloseSettings(OpenSettingsModal(s)) == s
  {
  }

  /** Settings, chosen from either menu, ends with the modal open and no menu. */
  lemma SettingsFromEitherMenu(s: MenuState, k: MenuKey, isTransitioning: bool)
    ensures Choose(s, Settings, isTransitioning).0 == MenuState(None, true)
    ensures Settings in ItemsOf(k)
  {
  }

  /** The navbar component's state, updated by its handlers. */
  class NavbarMenus {
    var openDropdown: Option<MenuKey>
    var isSettingsModalOpen: bool

    function State(): MenuState
      reads this
    {
      MenuState(openDropdown, isSettingsModalOpen)
    }

    /** `useState(null)` and `useState(false)`. */
    constructor()
      ensures openDropdown == None && !isSettingsModalOpen
    {
      openDropdown := None;
      isSettingsModalOpen := false;
    }

    /** The trigger button's `onClick`. */
    method ClickTrigger(k: MenuKey)
      modifies this
      ensures State() == Click(old(State()), k)
    {
      openDropdown := if openDropdown == Some(k) then None else Some(k);
    }

    /** The dropdown's `onOpenChange`. */
    method OnOpenChange(k: MenuKey, val: bool)
      modifies this
      ensures State() == OpenChange(old(State()), k, val)
    {
      openDropdown := if val then Some(k) else None;
    }

    /** An item's `onClick`; the effect is returned, not performed. */
    method ChooseItem(item: MenuItem, isTransitioning: bool) returns (effect: Option<Effect>)
      modifies this
      ensures (State(), effect) == Choose(old(State()), item, isTransitioning)
    {
      if !ItemEnabled(item, isTransitioning) {
        return None;
      }
      if item == Settings {
        isSettingsModalOpen := true;
      }
      if item != ChangeTheme {
        openDropdown := None;
      }
      effect := Some(ItemEffect(item));
    }

    /** The theme item's `onKeyDown`; the state is left as it is. */
    method ThemeItemKeyDown(key: string) returns (effect: Option<Effect>)
      ensures (State(), effect) == ThemeKeyDown(State(), key)
    {
      if key == "Enter" || key == " " {
        effect := Some(ToggleTheme);
      } else {
        effect := None;
      }
    }

    /** The desktop Settings button's `onClick`. */
    method PressSettingsButton()
      modifies this
      ensures State() == OpenSettingsModal(old(State()))
    {
      isSettingsModalOpen := true;
    }

    /** The settings modal's `onClose`. */
    method CloseSettingsModal()
      modifies this
      ensures State() == CloseSettings(old(State()))
    {
      isSettingsModalOpen := false;
    }
  }
}
