/**
 * The theme toggle of app.js: the body's data-theme attribute starts from the saved
 * preference (or "dark"), each click flips it between dark and light, writes the new value
 * to local storage under "theme" and updates the button's icon.
 */
module Theme {
  import opened Wrappers
  import Defaults

  const Dark := "dark"
  const Light := "light"
  const Moon := "\U{1F319}"
  const Sun := "\U{2600}\U{FE0F}"

  /** `localStorage.getItem('theme') || 'dark'`. */
  function InitialTheme(saved: Option<string>): (t: string)
    ensures Defaults.Truthy(saved) ==> t == saved.value
    ensures !Defaults.Truthy(saved) ==> t == Dark
  {
    Defaults.OrDefault(saved, Dark)
  }

  /** A click: "dark" becomes "light"; anything else, a stray saved value included, becomes "dark". */
  function Flip(t: string): (r: string)
    ensures r == Dark || r == Light
    ensures r == Light <==> t == Dark
  {
    if t == Dark then Light else Dark
  }

  function IconFor(t: string): (icon: string)
    ensures icon == Moon || icon == Sun
    ensures icon == Moon <==> t == Dark
  {
    if t == Dark then Moon else Sun
  }

  /** On the two themes a click is undone by a second click; from any other value two clicks give light. */
  lemma FlipTwice(t: string)
    ensures (t == Dark || t == Light) ==> Flip(Flip(t)) == t
    ensures t != Dark && t != Light ==> Flip(t) == Dark && Flip(Flip(t)) == Light
  {
  }

  class ThemeToggle {
    var theme: string              // the body's data-theme attribute
    var icon: string               // the toggle button's text
    var stored: Option<string>     // local storage under "theme"

    constructor Load(saved: Option<string>)
      ensures theme == InitialTheme(saved) && icon == IconFor(theme) && stored == saved
    {
      theme := InitialTheme(saved);
      icon := IconFor(InitialTheme(saved));
      stored := saved;
    }

    /** The click handler: flip, persist exactly the new value, update the icon. */
    method Toggle()
      modifies this
      ensures theme == Flip(old(theme)) && stored == Some(theme) && icon == IconFor(theme)
    {
      var current := Flip(theme);
      theme := current;
      stored := Some(current);
      icon := IconFor(current);
    }
  }

  /**
   * With nothing saved the page starts dark; two clicks persist "light" and then "dark",
   * and the page ends dark again.
   */
  method ToggleTwiceFromNothingSaved() returns (initial: string, firstSaved: Option<string>,
                                                 secondSaved: Option<string>, final: string)
    ensures initial == Dark && firstSaved == Some(Light) && secondSaved == Some(Dark) && final == Dark
  {
    var toggle := new ThemeToggle.Load(None);
    initial := toggle.theme;
    toggle.Toggle();
    firstSaved := toggle.stored;
    toggle.Toggle();
    secondSaved := toggle.stored;
    final := toggle.theme;
  }
}
