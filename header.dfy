/**
 * The site header: in-page navigation links of the form "/#id", the mobile menu, the
 * scrolled look and the body scroll lock. The scroll itself and the DOM are abstracted:
 * navigation yields the id of the element it scrolls to, if any.
 */
module Header {
  import opened JsValues

  datatype NavItem = NavItem(name: string, href: string)

  /** The four navigation links. */
  const Navigation: seq<NavItem> := [
    NavItem("Features", "/#features"),
    NavItem("How It Works", "/#how-it-works"),
    NavItem("Security", "/#security"),
    NavItem("FAQ", "/#faq")
  ]

  /** The href of the "Join Waitlist" button. */
  const WaitlistHref: string := "/#waitlist"

  /** `href.startsWith('/#') ? href.substring(2) : nothing`: the id of the section a link points to. */
  function TargetId(href: string): (id: Option<string>)
    ensures id.Some? <==> StartsWith(href, "/#")
    ensures id.Some? ==> href == "/#" + id.value
  {
    if StartsWith(href, "/#") then Some(href[2..]) else None
  }

  /** Every link of the header is an in-page link, to the four sections and the waitlist. */
  lemma NavigationTargets()
    ensures forall item :: item in Navigation ==> StartsWith(item.href, "/#")
    ensures [TargetId(Navigation[0].href), TargetId(Navigation[1].href), TargetId(Navigation[2].href), TargetId(Navigation[3].href)]
            == [Some("features"), Some("how-it-works"), Some("security"), Some("faq")]
    ensures TargetId(WaitlistHref) == Some("waitlist")
  {
    assert TargetId("/#features") == Some("features");
    assert TargetId("/#how-it-works") == Some("how-it-works");
    assert TargetId("/#security") == Some("security");
    assert TargetId("/#faq") == Some("faq");
    assert TargetId(WaitlistHref) == Some("waitlist");
  }

  /** `document.body.style.overflow` as the effect sets it. */
  function BodyOverflow(isMenuOpen: bool): (overflow: string)
    ensures overflow == "hidden" <==> isMenuOpen
    ensures overflow == "unset" <==> !isMenuOpen
  {
    if isMenuOpen then "hidden" else "unset"
  }

  /** The header's state. */
  class HeaderState {
    var isMenuOpen: bool
    var scrolled: bool

    constructor ()
      ensures !isMenuOpen && !scrolled
      ensures BodyOverflow(isMenuOpen) == "unset"
    {
      isMenuOpen := false;
      scrolled := false;
    }

    /** The scroll listener: the header takes its scrolled look past 20 pixels. */
    method OnScroll(scrollY: real)
      modifies this
      ensures scrolled <==> scrollY > 20.0
      ensures isMenuOpen == old(isMenuOpen)
    {
      scrolled := scrollY > 20.0;
    }

    /** The menu button. */
    method OpenMenu()
      modifies this
      ensures isMenuOpen && scrolled == old(scrolled)
      ensures BodyOverflow(isMenuOpen) == "hidden"
    {
      isMenuOpen := true;
    }

    /** The close button of the mobile menu, and a mobile link that is not in-page. */
    method CloseMenu()
      modifies this
      ensures !isMenuOpen && scrolled == old(scrolled)
      ensures BodyOverflow(isMenuOpen) == "unset"
    {
      isMenuOpen := false;
    }

    /**
     * `handleNavigation`: the menu always closes; for an in-page link whose element
     * exists, the id of the element to scroll to is returned.
     */
    method HandleNavigation(href: string, elementExists: string -> bool) returns (scrollTo: Option<string>)
      modifies this
      ensures !isMenuOpen && scrolled == old(scrolled)
      ensures scrollTo.Some? <==> StartsWith(href, "/#") && elementExists(href[2..])
      ensures scrollTo.Some? ==> scrollTo == TargetId(href)
    {
      isMenuOpen := false;
      scrollTo := None;
      if StartsWith(href, "/#") {
        var elementId := href[2..];
        if elementExists(elementId) {
          scrollTo := Some(elementId);
        }
      }
    }
  }
}
