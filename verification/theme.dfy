/** The light/dark theme of the application shell (frontend/src/App.tsx). */
module Theme {
  import opened Options

  const DarkName := "dark"
  const LightName := "light"

  /** The first value of `isDark`: a non-empty saved theme decides ("dark" means
      dark, any other saved value means light); otherwise the system preference. */
  function InitialIsDark(saved: Option<string>, prefersDark: bool): (isDark: bool)
    ensures saved.Some? && saved.value != "" ==> (isDark <==> saved.value == DarkName)
    ensures saved.None? || saved.value == "" ==> isDark == prefersDark
  {
    if saved.Some? && saved.value != "" then saved.value == DarkName else prefersDark
  }

  function ThemeName(isDark: bool): (name: string)
    ensures name == DarkName <==> isDark
    ensures name == LightName <==> !isDark
  {
    if isDark then DarkName else LightName
  }

  /** The two places the effect writes: the root element's `data-theme`
      attribute and the saved `theme` entry. */
  datatype Document = Document(dataTheme: Option<string>, savedTheme: Option<string>)

  /** The effect that runs whenever `isDark` changes. */
  function ApplyTheme(isDark: bool, doc: Document): (d: Document)
    ensures d.dataTheme == d.savedTheme
    ensures d.savedTheme.Some? && (d.savedTheme.value == DarkName <==> isDark)
    ensures d.savedTheme == Some(ThemeName(isDark))
  {
    Document(Some(ThemeName(isDark)), Some(ThemeName(isDark)))
  }

  /** `toggleTheme`. */
  function Toggle(isDark: bool): (r: bool)
    ensures r != isDark
  {
    !isDark
  }

  /** A reload restores the theme last applied, whatever the system preference. */
  lemma ReloadRestoresTheme(isDark: bool, doc: Document, prefersDark: bool)
    ensures InitialIsDark(ApplyTheme(isDark, doc).savedTheme, prefersDark) == isDark
  {
  }

  /** Toggling twice, with the effect applied each time, leaves the page as it was. */
  lemma ToggleTwiceRestores(isDark: bool, doc: Document)
    ensures Toggle(Toggle(isDark)) == isDark
    ensures ApplyTheme(Toggle(Toggle(isDark)), ApplyTheme(Toggle(isDark), doc)) == ApplyTheme(isDark, doc)
  {
  }
}
