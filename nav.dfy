/**
 * The mobile navigation of app.js: the hamburger button toggles the nav's `open` class and
 * writes the new state into its own aria-expanded attribute; a click on a nav link scrolls
 * to the link's target and then removes `open`.
 */
module Nav {

  /** `setAttribute('aria-expanded', open)` stores the boolean as text. */
  function AriaValue(open: bool): (a: string)
    ensures a == "true" <==> open
  {
    if open then "true" else "false"
  }

  class MobileNav {
    var open: bool              // the nav's `open` class
    var ariaExpanded: string    // the hamburger's aria-expanded attribute

    /** The attribute tells assistive technology the true state of the menu. */
    ghost predicate AriaMirrors()
      reads this
    {
      ariaExpanded == AriaValue(open)
    }

    /** The state the page's markup starts with. */
    constructor (open: bool, ariaExpanded: string)
      ensures this.open == open && this.ariaExpanded == ariaExpanded
    {
      this.open := open;
      this.ariaExpanded := ariaExpanded;
    }

    /** The hamburger click: `classList.toggle` negates `open`, and the attribute takes the new value. */
    method ToggleMenu()
      modifies this
      ensures open == !old(open) && ariaExpanded == AriaValue(open)
      ensures AriaMirrors()
    {
      open := !open;
      ariaExpanded := AriaValue(open);
    }

    /**
     * A nav-link click as written: when the link's target exists the menu is closed; when it
     * does not, `scrollIntoView` is called on null and throws before the menu is closed.
     * The aria-expanded attribute is not touched.
     */
    method FollowLink(targetFound: bool)
      modifies this
      ensures open == (old(open) && !targetFound)
      ensures ariaExpanded == old(ariaExpanded)
    {
      if targetFound {
        open := false;
      }
    }

    /** A nav-link click that also updates aria-expanded when it closes the menu. */
    method FollowLinkSynced(targetFound: bool)
      modifies this
      ensures open == (old(open) && !targetFound)
      ensures old(AriaMirrors()) ==> AriaMirrors()
      ensures targetFound ==> ariaExpanded == "false"
      ensures !targetFound ==> ariaExpanded == old(ariaExpanded)
    {
      if targetFound {
        open := false;
        ariaExpanded := AriaValue(false);
      }
    }
  }

  /** Opening the menu and following a link leaves it closed while aria-expanded still says "true". */
  method OpenThenFollowLeavesAriaStale() returns (open: bool, ariaExpanded: string)
    ensures !open && ariaExpanded == "true"
  {
    var nav := new MobileNav(false, "false");
    nav.ToggleMenu();
    nav.FollowLink(true);
    open, ariaExpanded := nav.open, nav.ariaExpanded;
  }

  /** With the synced click the same two steps leave the menu closed and the attribute "false". */
  method OpenThenFollowSyncedKeepsAria() returns (open: bool, ariaExpanded: string)
    ensures !open && ariaExpanded == "false" && ariaExpanded == AriaValue(open)
  {
    var nav := new MobileNav(false, "false");
    nav.ToggleMenu();
    nav.FollowLinkSynced(true);
    open, ariaExpanded := nav.open, nav.ariaExpanded;
  }
}
