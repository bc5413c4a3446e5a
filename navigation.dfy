/**
 * The mobile navigation toggle and the anchor-link handler that closes the
 * panel: a boolean "open" flag on the panel mirrored into the toggle
 * button's `aria-expanded` attribute.
 */
module Navigation {
  import opened Dom

  /** The open flag after `n` clicks on the toggle, starting from `open`. */
  function AfterClicks(open: bool, n: nat): bool {
    if n == 0 then open else !AfterClicks(open, n - 1)
  }

  /** Clicking `n` times leaves the panel flipped exactly when `n` is odd. */
  lemma {:induction false} ClickParity(open: bool, n: nat)
    ensures AfterClicks(open, n) == (open != (n % 2 == 1))
  {
    if n > 0 { ClickParity(open, n - 1); }
  }

  /**
   * Whether an anchor click is taken over by the script: the `href` must be
   * present, must not be `#` alone, and must select an element.
   */
  function AnchorHandled(href: Option<string>, targetFound: bool): (r: bool)
    ensures r ==> href.Some? && href.value != "" && href.value != "#" && targetFound
    ensures href.Some? && href.value != "" && href.value != "#" && targetFound ==> r
    ensures href == Some("#") || href == Some("") || href.None? ==> !r
  {
    match href
    case None => false
    case Some(h) => h != "" && h != "#" && targetFound
  }

  class Nav {
    /** Whether the toggle button and the panel are in the document. */
    const hasToggle: bool
    const hasPanel: bool
    /** The panel's `open` class and the button's `aria-expanded` attribute. */
    var open: bool
    var ariaExpanded: string

    constructor (hasToggle: bool, hasPanel: bool, open: bool, ariaExpanded: string)
      ensures this.hasToggle == hasToggle && this.hasPanel == hasPanel
      ensures this.open == open && this.ariaExpanded == ariaExpanded
    {
      this.hasToggle := hasToggle;
      this.hasPanel := hasPanel;
      this.open := open;
      this.ariaExpanded := ariaExpanded;
    }

    /**
     * A click on the toggle. The handler is only installed when both
     * elements exist; it flips the panel and writes the new state to the
     * button.
     */
    method ToggleClick()
      modifies this
      ensures hasToggle && hasPanel ==> open == !old(open) && ariaExpanded == BoolString(open)
      ensures !(hasToggle && hasPanel) ==> open == old(open) && ariaExpanded == old(ariaExpanded)
    {
      if hasToggle && hasPanel {
        open := !open;
        ariaExpanded := BoolString(open);
      }
    }

    /** `n` clicks on the toggle in a row. */
    method ToggleClicks(n: nat)
      modifies this
      ensures hasToggle && hasPanel ==> open == AfterClicks(old(open), n)
      ensures hasToggle && hasPanel ==> ariaExpanded == if n > 0 then BoolString(open) else old(ariaExpanded)
      ensures !(hasToggle && hasPanel) ==> open == old(open) && ariaExpanded == old(ariaExpanded)
    {
      var i := 0;
      while i < n
        invariant 0 <= i <= n
        invariant hasToggle && hasPanel ==> open == AfterClicks(old(open), i)
        invariant hasToggle && hasPanel ==> ariaExpanded == if i > 0 then BoolString(open) else old(ariaExpanded)
        invariant !(hasToggle && hasPanel) ==> open == old(open) && ariaExpanded == old(ariaExpanded)
      {
        ToggleClick();
        i := i + 1;
      }
    }

    /**
     * A click on a same-page anchor. When the link is handled, default
     * navigation is suppressed and the page scrolls; the panel is closed and
     * the button reset to `"false"` whatever they were before. Unhandled
     * links change nothing and are left to the browser.
     */
    method AnchorClick(href: Option<string>, targetFound: bool) returns (prevented: bool)
      modifies this
      ensures prevented == AnchorHandled(href, targetFound)
      ensures open == (if prevented && hasPanel then false else old(open))
      ensures ariaExpanded == (if prevented && hasToggle then "false" else old(ariaExpanded))
    {
      prevented := false;
      if href.None? || href.value == "" || href.value == "#" {
        return;
      }
      if targetFound {
        prevented := true;
        if hasPanel { open := false; }
        if hasToggle { ariaExpanded := "false"; }
      }
    }
  }
}
