/**
 * The theme manager: the current theme, the `data-theme` attribute of the
 * document element, and the `theme` entry of local storage.
 */
module Theme {
  import opened Wrappers

  const Dark: string := "dark"
  const Light: string := "light"

  /** `if (savedTheme)`: a stored value counts only when it is a non-empty string. */
  predicate IsSaved(saved: Option<string>)
  {
    saved.Some? && saved.value != ""
  }

  /** The theme chosen at startup, from the stored value and the `prefers-color-scheme: light` query. */
  function ResolveTheme(saved: Option<string>, prefersLight: bool): (theme: string)
    ensures theme != ""
    ensures theme == Dark || theme == Light || saved == Some(theme)
  {
    if IsSaved(saved) then saved.value
    else if prefersLight then Light
    else Dark
  }

  /** The resolution order: a stored theme wins, then a light system preference, then the default dark. */
  lemma ResolutionOrder(saved: Option<string>, prefersLight: bool)
    ensures IsSaved(saved) ==> ResolveTheme(saved, prefersLight) == saved.value
    ensures !IsSaved(saved) ==> (ResolveTheme(saved, prefersLight) == Light <==> prefersLight)
    ensures !IsSaved(saved) ==> (ResolveTheme(saved, prefersLight) == Dark <==> !prefersLight)
    ensures saved == Some(Dark) ==> ResolveTheme(saved, prefersLight) == Dark
  {
  }

  /** The theme after a toggle. */
  function Toggled(theme: string): (r: string)
    ensures (r == Light <==> theme == Dark) && (r == Dark <==> theme != Dark)
  {
    if theme == Dark then Light else Dark
  }

  /** Toggling always lands on dark or light, and undoes itself from either of them (but not from any other value). */
  lemma ToggleInvolution(theme: string)
    ensures Toggled(theme) == Dark || Toggled(theme) == Light
    ensures Toggled(theme) != theme
    ensures (theme == Dark || theme == Light) <==> Toggled(Toggled(theme)) == theme
  {
  }

  class ThemeManager {
    var currentTheme: string
    /** The `data-theme` attribute of the document element. */
    var dataTheme: Option<string>
    /** The `theme` entry of local storage. */
    var stored: Option<string>

    /** Construction: start dark, then `checkSystemPreference`. */
    constructor (stored: Option<string>, prefersLight: bool)
      ensures this.stored == stored
      ensures currentTheme == ResolveTheme(stored, prefersLight)
      ensures dataTheme == Some(currentTheme)
    {
      this.stored := stored;
      currentTheme := Dark;
      dataTheme := None;
      new;
      CheckSystemPreference(prefersLight);
    }

    method CheckSystemPreference(prefersLight: bool)
      modifies this`currentTheme, this`dataTheme
      ensures currentTheme == if IsSaved(stored) then stored.value else if prefersLight then Light else old(currentTheme)
      ensures dataTheme == Some(currentTheme)
    {
      var savedTheme := stored;
      if IsSaved(savedTheme) {
        currentTheme := savedTheme.value;
      } else {
        if prefersLight {
          currentTheme := Light;
        }
      }
      dataTheme := Some(currentTheme);
    }

    /** Flip the theme; the attribute and the stored value follow it. */
    method ToggleTheme()
      modifies this`currentTheme, this`dataTheme, this`stored
      ensures currentTheme == Toggled(old(currentTheme))
      ensures dataTheme == Some(currentTheme) && stored == Some(currentTheme)
    {
      currentTheme := if currentTheme == Dark then Light else Dark;
      dataTheme := Some(currentTheme);
      stored := Some(currentTheme);
    }
  }
}
