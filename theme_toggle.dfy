/** The light/dark theme switch (js/theme-toggle.js): the saved preference, the
    theme the page starts in, the toggle buttons' attributes, a click on a toggle
    and a change of the system's colour scheme. */
module ThemeToggle {
  import opened Wrappers

  datatype Theme = Dark | Light

  /** The text the page writes for a theme. */
  function Name(t: Theme): (s: string)
    ensures s == "dark" || s == "light"
    ensures s == "dark" <==> t == Dark
  {
    if t == Dark then "dark" else "light"
  }

  /** The attributes a toggle button carries: `aria-pressed`, `data-mode` and
      `aria-label`. */
  datatype ButtonAttrs = ButtonAttrs(ariaPressed: string, dataMode: string, ariaLabel: string)

  /** What `syncToggleState` writes on every button for a theme. */
  function Attrs(t: Theme): (b: ButtonAttrs)
    ensures b.ariaPressed == "true" <==> t == Dark
    ensures b.ariaPressed == "true" || b.ariaPressed == "false"
    ensures b.dataMode == Name(t)
  {
    ButtonAttrs(if t == Dark then "true" else "false", Name(t), "Switch theme (currently " + Name(t) + ")")
  }

  /** The two attribute sets differ, so the buttons always tell the themes apart. */
  lemma AttrsInjective(a: Theme, b: Theme)
    requires Attrs(a) == Attrs(b)
    ensures a == b
  {
  }

  /** The page's theme state: the root's `data-theme` attribute (empty when unset),
      the `theme` entry of local storage, whether the system asks for a dark
      scheme, and the toggle buttons' attributes. */
  datatype ThemeState = ThemeState(attr: string, stored: Option<string>, systemDark: bool, buttons: seq<ButtonAttrs>)

  /** `getSavedTheme`: the stored entry when it is `dark` or `light`, nothing otherwise. */
  function SavedTheme(stored: Option<string>): (t: Option<Theme>)
    ensures t == Some(Dark) <==> stored == Some("dark")
    ensures t == Some(Light) <==> stored == Some("light")
    ensures t.Some? ==> stored == Some(Name(t.value))
  {
    if stored == Some("dark") then Some(Dark)
    else if stored == Some("light") then Some(Light)
    else None
  }

  /** `getSystemTheme`. */
  function SystemTheme(systemDark: bool): (t: Theme)
    ensures t == Dark <==> systemDark
  {
    if systemDark then Dark else Light
  }

  /** `getPreferredTheme`: the saved theme, or else the system's. */
  function PreferredTheme(s: ThemeState): (t: Theme)
    ensures SavedTheme(s.stored).Some? ==> t == SavedTheme(s.stored).value
    ensures SavedTheme(s.stored).None? ==> t == SystemTheme(s.systemDark)
  {
    SavedTheme(s.stored).GetOr(SystemTheme(s.systemDark))
  }

  /** `applyTheme` followed by `syncToggleState`: the attribute and every button
      show the theme; storage and the system scheme are untouched. */
  function Show(s: ThemeState, t: Theme): (r: ThemeState)
    ensures r.attr == Name(t) && r.stored == s.stored && r.systemDark == s.systemDark
    ensures |r.buttons| == |s.buttons| && forall i :: 0 <= i < |r.buttons| ==> r.buttons[i] == Attrs(t)
  {
    s.(attr := Name(t), buttons := seq(|s.buttons|, _ => Attrs(t)))
  }

  /** The page shows one theme consistently: the attribute holds a theme and every
      button's `aria-pressed` and `data-mode` agree with it. */
  predicate Synced(s: ThemeState) {
    && (s.attr == "dark" || s.attr == "light")
    && forall i :: 0 <= i < |s.buttons| ==> s.buttons[i] == Attrs(if s.attr == "dark" then Dark else Light)
  }

  /** `initializeTheme`: the preferred theme is shown. */
  function Initialize(s: ThemeState): (r: ThemeState)
    ensures Synced(r)
    ensures r.attr == Name(PreferredTheme(s))
  {
    Show(s, PreferredTheme(s))
  }

  /** Initializing twice (at once and again on `DOMContentLoaded`) shows what
      initializing once shows. */
  lemma InitializeIdempotent(s: ThemeState)
    ensures Initialize(Initialize(s)) == Initialize(s)
  {
    var r := Initialize(s);
    assert PreferredTheme(r) == PreferredTheme(s);
    assert Initialize(r).buttons == r.buttons;
  }

  /** The theme a click starts from: the attribute, or the preferred theme when unset. */
  function CurrentTheme(s: ThemeState): (r: string)
    ensures r != []
    ensures s.attr != [] ==> r == s.attr
    ensures s.attr == [] ==> (r == "dark" || r == "light") && (r == "dark" <==> PreferredTheme(s) == Dark)
  {
    if s.attr != [] then s.attr else Name(PreferredTheme(s))
  }

  /** The theme a click moves to: `light` from `dark`, `dark` from anything else. */
  function NextTheme(current: string): (t: Theme)
    ensures t == Light <==> current == "dark"
  {
    if current == "dark" then Light else Dark
  }

  /** A click on a toggle: the next theme is shown and saved. */
  function Click(s: ThemeState): (r: ThemeState)
    ensures Synced(r)
    ensures r.stored == Some(r.attr)
    ensures r.attr == "light" <==> CurrentTheme(s) == "dark"
  {
    var next := NextTheme(CurrentTheme(s));
    Show(s, next).(stored := Some(Name(next)))
  }

  /** A click leaves a valid saved theme that is the one shown. */
  lemma ClickSavesShownTheme(s: ThemeState)
    ensures SavedTheme(Click(s).stored).Some?
    ensures Click(s).attr == Name(SavedTheme(Click(s).stored).value)
    ensures PreferredTheme(Click(s)) == NextTheme(CurrentTheme(s))
  {
  }

  /** Two clicks from a page showing `dark` or `light` give back what it showed. */
  lemma ClickTwiceRestores(s: ThemeState)
    requires Synced(s)
    ensures Click(Click(s)).attr == s.attr
    ensures Click(Click(s)).buttons == s.buttons
  {
    var r := Click(Click(s));
    assert |r.buttons| == |s.buttons|;
    forall i | 0 <= i < |s.buttons| ensures r.buttons[i] == s.buttons[i] {
    }
  }

  /** A change of the system's colour scheme: ignored while a valid theme is saved,
      otherwise the system's new theme is shown. */
  function SystemChange(s: ThemeState, systemDark: bool): (r: ThemeState)
    ensures r.systemDark == systemDark && r.stored == s.stored
    ensures SavedTheme(s.stored).Some? ==> r == s.(systemDark := systemDark)
    ensures SavedTheme(s.stored).None? ==> r.attr == Name(SystemTheme(systemDark)) && Synced(r)
  {
    var moved := s.(systemDark := systemDark);
    if SavedTheme(s.stored).Some? then moved else Show(moved, SystemTheme(systemDark))
  }

  /** After any click the page no longer follows the system: every later change of
      scheme leaves the theme and the buttons as they are. */
  lemma SystemChangeIgnoredAfterClick(s: ThemeState, systemDark: bool)
    ensures SystemChange(Click(s), systemDark).attr == Click(s).attr
    ensures SystemChange(Click(s), systemDark).buttons == Click(s).buttons
  {
  }

  /** Every handler keeps the page consistent. */
  lemma HandlersKeepSynced(s: ThemeState, systemDark: bool)
    requires Synced(s)
    ensures Synced(Click(s)) && Synced(SystemChange(s, systemDark)) && Synced(Initialize(s))
  {
  }

  /** The page's theme handlers over its real state: the root attribute, the
      storage entry, the system scheme and the toggle buttons' attributes. */
  class ThemeController {
    var attr: string
    var stored: Option<string>
    var systemDark: bool
    const buttons: array<ButtonAttrs>

    function State(): ThemeState
      reads this, buttons
    {
      ThemeState(attr, stored, systemDark, buttons[..])
    }

    /** The page as loaded, before the script runs. */
    constructor (attr0: string, stored0: Option<string>, systemDark0: bool, buttons0: seq<ButtonAttrs>)
      ensures State() == ThemeState(attr0, stored0, systemDark0, buttons0)
      ensures fresh(buttons)
    {
      attr := attr0;
      stored := stored0;
      systemDark := systemDark0;
      buttons := new ButtonAttrs[|buttons0|](i requires 0 <= i < |buttons0| => buttons0[i]);
    }

    /** `syncToggleState`: every button gets the theme's attributes. */
    method SyncToggleState(theme: Theme)
      modifies buttons
      ensures buttons[..] == Show(old(State()), theme).buttons
    {
      for i := 0 to buttons.Length
        invariant forall k :: 0 <= k < i ==> buttons[k] == Attrs(theme)
      {
        buttons[i] := Attrs(theme);
      }
    }

    method InitializeTheme()
      modifies this, buttons
      ensures State() == Initialize(old(State()))
    {
      var initialTheme := SavedTheme(stored).GetOr(SystemTheme(systemDark));
      attr := Name(initialTheme);
      SyncToggleState(initialTheme);
    }

    /** The click handler bound to every toggle. */
    method OnToggleClick()
      modifies this, buttons
      ensures State() == Click(old(State()))
    {
      var currentTheme := if attr != [] then attr else Name(SavedTheme(stored).GetOr(SystemTheme(systemDark)));
      var nextTheme := if currentTheme == "dark" then Light else Dark;
      attr := Name(nextTheme);
      SyncToggleState(nextTheme);
      stored := Some(Name(nextTheme));
    }

    /** The `change` handler on the `prefers-color-scheme: dark` query. */
    method OnSystemChange(matches: bool)
      modifies this, buttons
      ensures State() == SystemChange(old(State()), matches)
    {
      systemDark := matches;
      if SavedTheme(stored).Some? {
        return;
      }
      var preferredTheme := SystemTheme(matches);
      attr := Name(preferredTheme);
      SyncToggleState(preferredTheme);
    }
  }
}
