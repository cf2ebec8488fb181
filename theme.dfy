/**
 * The colour theme: its initial value read from the key-value store, and the
 * light/dark toggle.
 */
module Theme {

  const ThemeKey := "theme"
  const Light := "light"
  const Dark := "dark"

  /** `getItem('theme') || 'light'`: a missing key or an empty stored string
      gives the light theme; any other stored string is taken as it is. */
  function InitialTheme(store: map<string, string>): (t: string)
    ensures ThemeKey in store && store[ThemeKey] != "" ==> t == store[ThemeKey]
    ensures ThemeKey !in store || store[ThemeKey] == "" ==> t == Light
    ensures t != ""
  {
    if ThemeKey in store && store[ThemeKey] != "" then store[ThemeKey] else Light
  }

  /** The value the toggle moves to from `t`. */
  function Toggle(t: string): (r: string)
    ensures r == Light || r == Dark
    ensures r == Dark <==> t == Light
  {
    if t == Light then Dark else Light
  }

  /** Toggling twice from either proper theme comes back to it; from any
      other stored string it ends on dark. */
  lemma ToggleTwice(t: string)
    ensures t == Light || t == Dark ==> Toggle(Toggle(t)) == t
    ensures t != Light && t != Dark ==> Toggle(Toggle(t)) == Dark
  {
  }

  /** A toggled theme written to the store is what the next page load reads. */
  lemma ToggleSurvivesReload(store: map<string, string>, t: string)
    ensures InitialTheme(store[ThemeKey := Toggle(t)]) == Toggle(t)
  {
  }
}
