/** Keyboard-navigation mode and the Escape shortcut of the accessibility enhancer. */
module Accessibility {

  const TabKey: string := "Tab"
  const EscapeKey: string := "Escape"

  class KeyboardNavigation {
    /** `keyboard-navigation` on the body. */
    var keyboardMode: bool

    constructor ()
      ensures !keyboardMode
    {
      keyboardMode := false;
    }

    /**
     * A keydown: Tab turns keyboard mode on; Escape asks for the mobile menu
     * to close (`requestClose`), only when that menu is open.
     */
    method OnKeyDown(key: string, menuOpen: bool) returns (requestClose: bool)
      modifies this`keyboardMode
      ensures keyboardMode == (old(keyboardMode) || key == TabKey)
      ensures requestClose <==> key == EscapeKey && menuOpen
    {
      if key == TabKey {
        keyboardMode := true;
      }
      requestClose := false;
      if key == EscapeKey {
        if menuOpen {
          requestClose := true;
        }
      }
    }

    /** A mousedown turns keyboard mode off. */
    method OnMouseDown()
      modifies this`keyboardMode
      ensures !keyboardMode
    {
      keyboardMode := false;
    }
  }
}
