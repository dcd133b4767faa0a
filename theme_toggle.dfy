/**
 * `ThemeToggle` from lib/theme-toggle.js: a theme string kept in step with the
 * root element's `data-theme` attribute and the stored 'theme' item.
 * `matchMedia` is an input: whether it exists and whether the dark-scheme
 * query matches.
 */
module Theme {
  import opened Wrappers
  import Dom
  import Storage

  const Dark := "dark"
  const Light := "light"
  const ThemeAttribute := "data-theme"

  /** `getPreferredTheme()`. */
  function PreferredTheme(hasMatchMedia: bool, prefersDark: bool): (t: string)
    ensures t == Dark <==> hasMatchMedia && prefersDark
    ensures t == Dark || t == Light
  {
    if hasMatchMedia && prefersDark then Dark else Light
  }

  /** `getStoredTheme() || getPreferredTheme()`: a stored theme wins unless it is missing or empty. */
  function InitialTheme(stored: Option<string>, preferred: string): (t: string)
    ensures stored.Some? && stored.value != "" ==> t == stored.value
    ensures stored.None? || stored.value == "" ==> t == preferred
  {
    if stored.Some? && stored.value != "" then stored.value else preferred
  }

  /** The theme `toggle` switches to: 'light' from 'dark', 'dark' from anything else. */
  function Toggled(t: string): (r: string)
    ensures r == Light <==> t == Dark
    ensures r == Dark || r == Light
  {
    if t == Dark then Light else Dark
  }

  /** Toggling twice restores either of the two themes. */
  lemma ToggleTwice(t: string)
    requires t == Dark || t == Light
    ensures Toggled(Toggled(t)) == t
  {
  }

  /** From any theme, even an unknown stored one, a single toggle lands on 'dark' or 'light', and from then on toggling alternates. */
  lemma ToggleSettles(t: string)
    ensures Toggled(Toggled(Toggled(t))) == Toggled(t)
  {
  }

  class ThemeToggle {
    var theme: string
    const root: Dom.Element
    const storage: Storage.LocalStorage
    const hasMatchMedia: bool

    /** `theme`, the attribute and (when storage accepts writes) the stored item all hold `t`. */
    ghost predicate InSync(t: string)
      reads this, root, storage
    {
      theme == t && ThemeAttribute in root.attrs && root.attrs[ThemeAttribute] == t &&
      (storage.writable ==> Storage.ThemeKey in storage.texts && storage.texts[Storage.ThemeKey] == t)
    }

    /** The constructor and `init()`: choose the initial theme, then apply it with `setTheme`. */
    constructor (storage: Storage.LocalStorage, root: Dom.Element, hasMatchMedia: bool, prefersDark: bool)
      modifies storage, root
      ensures this.storage == storage && this.root == root && this.hasMatchMedia == hasMatchMedia
      ensures theme == InitialTheme(old(storage.ReadText(Storage.ThemeKey)), PreferredTheme(hasMatchMedia, prefersDark))
      ensures InSync(theme)
      ensures root.attrs == old(root.attrs)[ThemeAttribute := theme]
      ensures storage.texts == if storage.writable then old(storage.texts)[Storage.ThemeKey := theme] else old(storage.texts)
      ensures storage.lists == old(storage.lists)
      ensures storage.readable == old(storage.readable) && storage.writable == old(storage.writable)
      ensures root.classes == old(root.classes) && root.styles == old(root.styles)
      ensures root.text == old(root.text) && root.hidden == old(root.hidden)
    {
      var stored := storage.ReadText(Storage.ThemeKey);
      var t := InitialTheme(stored, PreferredTheme(hasMatchMedia, prefersDark));
      this.storage := storage;
      this.root := root;
      this.hasMatchMedia := hasMatchMedia;
      this.theme := t;
      new;
      SetTheme(t);
    }

    /** `getStoredTheme()`: the stored item, `None` when it is missing or reading throws. */
    method GetStoredTheme() returns (t: Option<string>)
      ensures t == storage.ReadText(Storage.ThemeKey)
      ensures t.Some? ==> storage.readable
    {
      t := storage.ReadText(Storage.ThemeKey);
    }

    /** `setTheme(t)`: the field and the attribute always take `t`; a refused storage write is ignored. */
    method SetTheme(t: string)
      modifies this, root, storage
      ensures InSync(t)
      ensures root.attrs == old(root.attrs)[ThemeAttribute := t]
      ensures storage.texts == if storage.writable then old(storage.texts)[Storage.ThemeKey := t] else old(storage.texts)
      ensures storage.lists == old(storage.lists)
      ensures storage.readable == old(storage.readable) && storage.writable == old(storage.writable)
      ensures root.classes == old(root.classes) && root.styles == old(root.styles)
      ensures root.text == old(root.text) && root.hidden == old(root.hidden)
    {
      theme := t;
      root.attrs := root.attrs[ThemeAttribute := t];
      var _ := storage.SetText(Storage.ThemeKey, t);
    }

    /** `toggle()`: switches to `Toggled(theme)`, applies it with `setTheme` and returns it. */
    method Toggle() returns (newTheme: string)
      modifies this, root, storage
      ensures newTheme == Toggled(old(theme))
      ensures InSync(newTheme)
      ensures root.attrs == old(root.attrs)[ThemeAttribute := newTheme]
      ensures storage.texts == if storage.writable then old(storage.texts)[Storage.ThemeKey := newTheme] else old(storage.texts)
      ensures storage.lists == old(storage.lists)
      ensures storage.readable == old(storage.readable) && storage.writable == old(storage.writable)
      ensures root.classes == old(root.classes) && root.styles == old(root.styles)
      ensures root.text == old(root.text) && root.hidden == old(root.hidden)
    {
      newTheme := Toggled(theme);
      SetTheme(newTheme);
    }

    /** `getCurrentTheme()`. */
    method GetCurrentTheme() returns (t: string)
      ensures t == theme
    {
      t := theme;
    }

    /**
     * The `change` listener on the dark-scheme query, registered only when
     * `matchMedia` exists: it follows the system only while no theme is stored.
     */
    method OnSystemChange(matches: bool)
      modifies this, root, storage
      ensures var stored := old(storage.ReadText(Storage.ThemeKey));
        if hasMatchMedia && (stored.None? || stored.value == "") then
          var t := if matches then Dark else Light;
          InSync(t) &&
          root.attrs == old(root.attrs)[ThemeAttribute := t] &&
          storage.texts == (if storage.writable then old(storage.texts)[Storage.ThemeKey := t] else old(storage.texts))
        else
          theme == old(theme) && root.attrs == old(root.attrs) && storage.texts == old(storage.texts)
      ensures storage.lists == old(storage.lists)
      ensures storage.readable == old(storage.readable) && storage.writable == old(storage.writable)
      ensures root.classes == old(root.classes) && root.styles == old(root.styles)
      ensures root.text == old(root.text) && root.hidden == old(root.hidden)
    {
      if !hasMatchMedia {
        return;
      }
      var stored := GetStoredTheme();
      if stored.None? || stored.value == "" {
        SetTheme(if matches then Dark else Light);
      }
    }
  }

  /**
   * With storage that can be read and written, the constructor records the
   * initial theme, so a later system change never applies: on a first visit
   * the page keeps the scheme it started with even when the system switches.
   */
  method SystemChangeAfterFirstVisit(prefersDark: bool, matches: bool) returns (before: string, after: string)
    ensures before == PreferredTheme(true, prefersDark)
    ensures after == before
  {
    var storage := new Storage.LocalStorage(map[], map[], true, true);
    var root := new Dom.Element();
    var toggle := new ThemeToggle(storage, root, true, prefersDark);
    before := toggle.GetCurrentTheme();
    toggle.OnSystemChange(matches);
    after := toggle.GetCurrentTheme();
  }

  /** `toggle()` followed by `getCurrentTheme()` reports the theme `toggle` returned, and a second toggle undoes the first. */
  method ToggleRoundTrip(t: string) returns (first: string, current: string, second: string)
    requires t == Dark || t == Light
    ensures first == Toggled(t) && current == first && second == t
  {
    var storage := new Storage.LocalStorage(map[Storage.ThemeKey := t], map[], true, true);
    var root := new Dom.Element();
    var toggle := new ThemeToggle(storage, root, false, false);
    first := toggle.Toggle();
    current := toggle.GetCurrentTheme();
    second := toggle.Toggle();
  }
}
