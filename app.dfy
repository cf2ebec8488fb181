/**
 * The root `App` component's own state: the theme (mirrored into the
 * browser's key-value store) and the highlighted navigation section.
 */
module Portfolio {
  import opened Wrappers
  import opened Theme
  import opened ScrollSpy

  class App {
    var theme: string
    /** The browser's key-value storage. */
    var store: map<string, string>
    var activeSection: Section

    /** A fact about every reachable state, kept by each method (no contract
        needs it): the theme is never empty, and it equals the stored value
        whenever a non-empty one is stored. */
    predicate Valid()
      reads this
    {
      theme != "" && (ThemeKey in store && store[ThemeKey] != "" ==> theme == store[ThemeKey])
    }

    /** First render: the theme comes from the store, the highlight is `about`. */
    constructor (stored: map<string, string>)
      ensures Valid()
      ensures store == stored
      ensures ThemeKey in stored && stored[ThemeKey] != "" ==> theme == stored[ThemeKey]
      ensures ThemeKey !in stored || stored[ThemeKey] == "" ==> theme == Light
      ensures activeSection == About
    {
      store := stored;
      theme := InitialTheme(stored);
      activeSection := About;
    }

    /** `toggleTheme`: light becomes dark, anything else light, and the new
        value is written under the theme key; no other key changes. */
    method ToggleTheme()
      requires Valid()
      modifies this
      ensures Valid()
      ensures theme == Toggle(old(theme))
      ensures store == old(store)[ThemeKey := theme]
      // Corollary of the clause above, written out: no other key changes.
      ensures forall k :: k in old(store) && k != ThemeKey ==> k in store && store[k] == old(store)[k]
      ensures activeSection == old(activeSection)
    {
      var next := Toggle(theme);
      store := store[ThemeKey := next];
      theme := next;
    }

    /** `handleScroll`, run once at mount and on every scroll event. */
    method HandleScroll(v: Viewport, layout: Layout)
      requires Valid()
      modifies this
      ensures Valid()
      ensures activeSection == SelectSection(v, layout).GetOr(old(activeSection))
      // Corollaries of the clause above, written out for the reader.
      ensures AtBottom(v) ==> activeSection == Contact
      ensures SelectSection(v, layout).None? ==> activeSection == old(activeSection)
      ensures theme == old(theme) && store == old(store)
    {
      match SelectSection(v, layout) {
        case Some(s) => activeSection := s;
        case None =>
      }
    }
  }
}
