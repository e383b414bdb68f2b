/** The application root's one cross-component wire: the `closeMobileMenu` event. */
module App {
  import opened Navigation
  import opened Accessibility

  /**
   * A keydown reaches the accessibility enhancer; when it asks for the menu to
   * close, the root closes the navigation's menu.
   */
  method OnKeyDown(keys: KeyboardNavigation, nav: NavigationController, key: string)
    modifies keys, nav`menuOpen, nav`toggleActive, nav`overflowLocked
    ensures keys.keyboardMode == (old(keys.keyboardMode) || key == TabKey)
    ensures key == EscapeKey && old(nav.menuOpen) ==> !nav.menuOpen && !nav.toggleActive && !nav.overflowLocked
    ensures !(key == EscapeKey && old(nav.menuOpen)) ==> unchanged(nav)
  {
    var requestClose := keys.OnKeyDown(key, nav.menuOpen);
    if requestClose {
      nav.CloseMobileMenu();
    }
  }
}
