/**
 * The navigation controller: the "scrolled" look of the bar, the mobile menu
 * (open class on the menu, active class on its toggle, scroll lock on the
 * body) and scroll-spy highlighting of the nav links.
 */
module Navigation {
  import opened Wrappers

  /** An anchor element, identified by its position in the document. */
  type LinkId = nat

  /** An `<a>` element and its `href` attribute. */
  datatype Anchor = Anchor(id: LinkId, href: string)

  /** A scroll-spy observer entry: the observed section's id and whether it intersects. */
  datatype SectionEntry = SectionEntry(sectionId: string, isIntersecting: bool)

  /** Page offset past which the bar takes its scrolled look. */
  const ScrollThreshold: real := 50.0
  /** Window width above which the layout is the desktop one. */
  const DesktopBreakpoint: int := 768
  const ScrolledBackground: string := "rgba(10, 10, 10, 0.95)"
  const TopBackground: string := "rgba(10, 10, 10, 0.9)"

  predicate IsScrolled(pageYOffset: real)
  {
    pageYOffset > ScrollThreshold
  }

  predicate IsDesktopWidth(innerWidth: int)
  {
    innerWidth > DesktopBreakpoint
  }

  /**
   * `document.querySelector('a[href="…"]')`: the first anchor, in document
   * order, whose href is exactly `href`.
   */
  function FindAnchor(anchors: seq<Anchor>, href: string): (r: Option<LinkId>)
    ensures r.None? <==> forall i :: 0 <= i < |anchors| ==> anchors[i].href != href
    ensures r.Some? ==>
              exists i :: 0 <= i < |anchors| && anchors[i].href == href && anchors[i].id == r.value &&
                          forall j :: 0 <= j < i ==> anchors[j].href != href
  {
    if anchors == [] then None
    else if anchors[0].href == href then Some(anchors[0].id)
    else
      var r := FindAnchor(anchors[1..], href);
      assert forall i :: 1 <= i < |anchors| ==> anchors[i] == anchors[1..][i - 1];
      assert r.Some? ==> exists i :: 0 <= i < |anchors[1..]| && anchors[1..][i].href == href && anchors[1..][i].id == r.value &&
                          (forall j :: 0 <= j < i ==> anchors[1..][j].href != href);
      assert r.Some? ==> exists i :: 1 <= i < |anchors| && anchors[i].href == href && anchors[i].id == r.value &&
                          (forall j :: 0 <= j < i ==> anchors[j].href != href);
      r
  }

  /** The link the scroll-spy highlights for a section: the anchor whose href is `#` and the id. */
  function SpyTarget(anchors: seq<Anchor>, sectionId: string): Option<LinkId>
  {
    FindAnchor(anchors, "#" + sectionId)
  }

  function LinkSet(navLinks: seq<LinkId>): set<LinkId>
  {
    set l | l in navLinks
  }

  /** The active set after the scroll-spy callback handles one entry. */
  function SpyStep(anchors: seq<Anchor>, navLinks: seq<LinkId>, active: set<LinkId>, e: SectionEntry): (r: set<LinkId>)
    ensures !e.isIntersecting ==> r == active
    ensures e.isIntersecting ==> r * LinkSet(navLinks) <= OptionSet(SpyTarget(anchors, e.sectionId)) <= r
    ensures active - LinkSet(navLinks) <= r <= active + OptionSet(SpyTarget(anchors, e.sectionId))
  {
    if e.isIntersecting then (active - LinkSet(navLinks)) + OptionSet(SpyTarget(anchors, e.sectionId))
    else active
  }

  /** The active set after the callback handles a batch, entry by entry in order. */
  function SpyBatch(anchors: seq<Anchor>, navLinks: seq<LinkId>, active: set<LinkId>, entries: seq<SectionEntry>): (r: set<LinkId>)
    ensures active - LinkSet(navLinks) <= r
  {
    if entries == [] then active
    else SpyStep(anchors, navLinks, SpyBatch(anchors, navLinks, active, entries[..|entries| - 1]), entries[|entries| - 1])
  }

  /** Whatever a batch makes active that was not is the highlighted link of one of its intersecting sections. */
  lemma {:induction false} SpyBatchGainsOnlyTargets(anchors: seq<Anchor>, navLinks: seq<LinkId>, active: set<LinkId>,
                                                    entries: seq<SectionEntry>, x: LinkId)
    requires x in SpyBatch(anchors, navLinks, active, entries) && x !in active
    ensures exists i :: 0 <= i < |entries| && entries[i].isIntersecting &&
                        SpyTarget(anchors, entries[i].sectionId) == Some(x)
  {
    var init := entries[..|entries| - 1];
    var last := entries[|entries| - 1];
    var before := SpyBatch(anchors, navLinks, active, init);
    if x in before {
      SpyBatchGainsOnlyTargets(anchors, navLinks, active, init, x);
      var i :| 0 <= i < |init| && init[i].isIntersecting && SpyTarget(anchors, init[i].sectionId) == Some(x);
      assert entries[i] == init[i];
    } else {
      assert last.isIntersecting && SpyTarget(anchors, last.sectionId) == Some(x);
    }
  }

  /** A batch with no intersecting entry leaves the highlighting alone. */
  lemma {:induction false} SpyBatchQuiet(anchors: seq<Anchor>, navLinks: seq<LinkId>, active: set<LinkId>, entries: seq<SectionEntry>)
    requires forall i :: 0 <= i < |entries| ==> !entries[i].isIntersecting
    ensures SpyBatch(anchors, navLinks, active, entries) == active
  {
    if entries != [] {
      SpyBatchQuiet(anchors, navLinks, active, entries[..|entries| - 1]);
    }
  }

  /**
   * After a batch, the only nav link that can be active is the highlighted
   * link of the last intersecting section (entry `i`).
   */
  lemma {:induction false} SpyBatchLastWins(anchors: seq<Anchor>, navLinks: seq<LinkId>, active: set<LinkId>,
                                            entries: seq<SectionEntry>, i: nat)
    requires i < |entries| && entries[i].isIntersecting
    requires forall j :: i < j < |entries| ==> !entries[j].isIntersecting
    ensures SpyBatch(anchors, navLinks, active, entries) * LinkSet(navLinks) <= OptionSet(SpyTarget(anchors, entries[i].sectionId))
  {
    var init := entries[..|entries| - 1];
    if i < |entries| - 1 {
      assert init[i] == entries[i];
      assert forall j :: i < j < |init| ==> init[j] == entries[j];
      SpyBatchLastWins(anchors, navLinks, active, init, i);
    }
  }

  /**
   * After a batch, the `#<id>` anchor of the last intersecting section (entry
   * `i`), when the document has one, is active.
   */
  lemma {:induction false} SpyBatchLastHighlighted(anchors: seq<Anchor>, navLinks: seq<LinkId>, active: set<LinkId>,
                                                   entries: seq<SectionEntry>, i: nat)
    requires i < |entries| && entries[i].isIntersecting
    requires forall j :: i < j < |entries| ==> !entries[j].isIntersecting
    ensures OptionSet(SpyTarget(anchors, entries[i].sectionId)) <= SpyBatch(anchors, navLinks, active, entries)
  {
    var init := entries[..|entries| - 1];
    if i < |entries| - 1 {
      assert init[i] == entries[i];
      assert forall j :: i < j < |init| ==> init[j] == entries[j];
      SpyBatchLastHighlighted(anchors, navLinks, active, init, i);
    }
  }

  /** Nav-link highlighting stays mutually exclusive: at most one nav link is active. */
  lemma {:induction false} SpyBatchKeepsOneNavLink(anchors: seq<Anchor>, navLinks: seq<LinkId>, active: set<LinkId>, entries: seq<SectionEntry>)
    requires |active * LinkSet(navLinks)| <= 1
    ensures |SpyBatch(anchors, navLinks, active, entries) * LinkSet(navLinks)| <= 1
  {
    if entries != [] {
      var init := entries[..|entries| - 1];
      var last := entries[|entries| - 1];
      if last.isIntersecting {
        SpyBatchLastWins(anchors, navLinks, active, entries, |entries| - 1);
        SubsetCard(SpyBatch(anchors, navLinks, active, entries) * LinkSet(navLinks), OptionSet(SpyTarget(anchors, last.sectionId)));
      } else {
        SpyBatchKeepsOneNavLink(anchors, navLinks, active, init);
      }
    }
  }

  lemma SubsetCard<T>(a: set<T>, b: set<T>)
    requires a <= b
    ensures |a| <= |b|
  {
    assert b == a + (b - a);
  }

  class NavigationController {
    /**
     * Every anchor of the document, in document order, as the spy's
     * `querySelector` sees the live document: after startup it begins with
     * the skip link to `#main-content`, the id the hero section is renamed to.
     */
    const anchors: seq<Anchor>
    /** The `.nav-link` anchors. */
    const navLinks: seq<LinkId>

    /** `nav-scrolled` on the bar, and the inline background written with it. */
    var navScrolled: bool
    var background: string
    /** `mobile-menu-open` on the menu. */
    var menuOpen: bool
    /** `mobile-menu-active` on the toggle. */
    var toggleActive: bool
    /** `body.style.overflow` is `hidden`. */
    var overflowLocked: bool
    /** The anchors carrying the `active` class. */
    var active: set<LinkId>

    /** The menu's three marks agree. */
    ghost predicate MenuConsistent()
      reads this
    {
      toggleActive == menuOpen && overflowLocked == menuOpen
    }

    constructor (anchors: seq<Anchor>, navLinks: seq<LinkId>, initiallyActive: set<LinkId>, background: string)
      ensures this.anchors == anchors && this.navLinks == navLinks
      ensures !menuOpen && !toggleActive && !overflowLocked && MenuConsistent()
      ensures !navScrolled && this.background == background && active == initiallyActive
    {
      this.anchors := anchors;
      this.navLinks := navLinks;
      this.background := background;
      navScrolled := false;
      menuOpen, toggleActive, overflowLocked := false, false, false;
      active := initiallyActive;
    }

    /** The scroll handler: the bar is marked scrolled exactly when the offset is past 50. */
    method HandleScroll(pageYOffset: real)
      modifies this`navScrolled, this`background
      ensures navScrolled == IsScrolled(pageYOffset)
      ensures background == if navScrolled then ScrolledBackground else TopBackground
    {
      var scrolled := IsScrolled(pageYOffset);
      if scrolled {
        navScrolled := true;
        background := ScrolledBackground;
      } else {
        navScrolled := false;
        background := TopBackground;
      }
    }

    method ToggleMobileMenu()
      modifies this`menuOpen, this`toggleActive, this`overflowLocked
      ensures menuOpen == !old(menuOpen) && toggleActive == !old(toggleActive)
      ensures overflowLocked <==> menuOpen
      ensures old(MenuConsistent()) ==> MenuConsistent()
    {
      menuOpen := !menuOpen;
      toggleActive := !toggleActive;
      if menuOpen {
        overflowLocked := true;
      } else {
        overflowLocked := false;
      }
    }

    /** Closing leaves a state that does not depend on the old one, so closing twice is closing once. */
    method CloseMobileMenu()
      modifies this`menuOpen, this`toggleActive, this`overflowLocked
      ensures !menuOpen && !toggleActive && !overflowLocked && MenuConsistent()
    {
      menuOpen := false;
      toggleActive := false;
      overflowLocked := false;
    }

    method HandleResize(innerWidth: int)
      modifies this`menuOpen, this`toggleActive, this`overflowLocked
      ensures IsDesktopWidth(innerWidth) ==> !menuOpen && !toggleActive && !overflowLocked
      ensures !IsDesktopWidth(innerWidth) ==> unchanged(this)
    {
      if IsDesktopWidth(innerWidth) {
        CloseMobileMenu();
      }
    }

    /** A nav link was clicked; `targetExists` says whether its href names an element. */
    method HandleNavLinkClick(targetExists: bool)
      modifies this`menuOpen, this`toggleActive, this`overflowLocked
      ensures targetExists ==> !menuOpen && !toggleActive && !overflowLocked
      ensures !targetExists ==> unchanged(this)
    {
      if targetExists {
        CloseMobileMenu();
      }
    }

    /** A click anywhere in the document; `insideNav` says whether the bar contains its target. */
    method HandleDocumentClick(insideNav: bool)
      modifies this`menuOpen, this`toggleActive, this`overflowLocked
      ensures !insideNav ==> !menuOpen && !toggleActive && !overflowLocked
      ensures insideNav ==> unchanged(this)
    {
      if !insideNav {
        CloseMobileMenu();
      }
    }

    /** The scroll-spy observer callback. */
    method OnSectionsIntersect(entries: seq<SectionEntry>)
      modifies this`active
      ensures active == SpyBatch(anchors, navLinks, old(active), entries)
    {
      var i := 0;
      while i < |entries|
        invariant 0 <= i <= |entries|
        invariant active == SpyBatch(anchors, navLinks, old(active), entries[..i])
      {
        var entry := entries[i];
        var navLink := SpyTarget(anchors, entry.sectionId);
        ghost var before := active;
        if entry.isIntersecting {
          var j := 0;
          while j < |navLinks|
            invariant 0 <= j <= |navLinks|
            invariant active == before - LinkSet(navLinks[..j])
          {
            assert LinkSet(navLinks[..j + 1]) == LinkSet(navLinks[..j]) + {navLinks[j]} by {
              assert navLinks[..j + 1] == navLinks[..j] + [navLinks[j]];
            }
            active := active - {navLinks[j]};
            j := j + 1;
          }
          assert navLinks[..j] == navLinks;
          if navLink.Some? {
            active := active + {navLink.value};
          }
        }
        assert entries[..i + 1][..i] == entries[..i];
        i := i + 1;
      }
      assert entries[..i] == entries;
    }
  }
}
