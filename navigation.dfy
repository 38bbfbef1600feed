/**
 * SaimonApp.initializeNavigation: the mobile menu's open/close handlers and
 * the scroll handler that marks the nav link of the section in view.
 */
module Navigation {
  import opened Wrappers

  // ---------------------------------------------------------------------
  // Mobile menu
  // ---------------------------------------------------------------------

  /** The state the menu handlers read and write: the menu's "hidden" class,
      the button's aria-expanded attribute, and the "hidden" class of the
      menu icon and of the close icon. */
  datatype MenuView = MenuView(
    menuHidden: bool,
    ariaExpanded: string,
    menuIconHidden: bool,
    closeIconHidden: bool)

  /** The events the handlers listen to. A click on the button also reaches
      the document handler, which ignores it (the target is in the button);
      the same holds for a click on a link inside the menu. */
  datatype MenuEvent =
    | ButtonClick
    | MenuLinkClick
    | DocumentClick(inButton: bool, inMenu: bool)
    | KeyDown(key: string)
    | WindowResize(innerWidth: int)

  /** The "lg" breakpoint. */
  const DesktopWidth: int := 1024

  /** The button's click handler: every class is toggled, and aria-expanded
      becomes the negation of what the attribute said. */
  function Toggled(s: MenuView, iconsPresent: bool): (r: MenuView)
    ensures r.menuHidden == !s.menuHidden
    ensures r.ariaExpanded == "true" <==> s.ariaExpanded != "true"
  {
    var isExpanded := s.ariaExpanded == "true";
    MenuView(
      !s.menuHidden,
      if isExpanded then "false" else "true",
      if iconsPresent then !s.menuIconHidden else s.menuIconHidden,
      if iconsPresent then !s.closeIconHidden else s.closeIconHidden)
  }

  /** The shared closing code: hide the menu, say not expanded, show the
      menu icon and hide the close icon. */
  function Closed(s: MenuView, iconsPresent: bool): (r: MenuView)
    ensures r.menuHidden && r.ariaExpanded == "false"
    ensures !iconsPresent ==> r.menuIconHidden == s.menuIconHidden && r.closeIconHidden == s.closeIconHidden
  {
    MenuView(
      true,
      "false",
      if iconsPresent then false else s.menuIconHidden,
      if iconsPresent then true else s.closeIconHidden)
  }

  /** What each event does to the menu. */
  function HandleMenu(s: MenuView, e: MenuEvent, iconsPresent: bool): (r: MenuView)
    ensures e.ButtonClick? ==> r.menuHidden != s.menuHidden
    ensures !e.ButtonClick? ==> r == s || r == Closed(s, iconsPresent)
  {
    match e
    case ButtonClick => Toggled(s, iconsPresent)
    case MenuLinkClick => Closed(s, iconsPresent)
    case DocumentClick(inButton, inMenu) =>
      if !inButton && !inMenu then Closed(s, iconsPresent) else s
    case KeyDown(key) =>
      if key == "Escape" && !s.menuHidden then Closed(s, iconsPresent) else s
    case WindowResize(innerWidth) =>
      if innerWidth >= DesktopWidth then Closed(s, iconsPresent) else s
  }

  /** A sequence of events, handled in order. */
  function RunMenu(s: MenuView, events: seq<MenuEvent>, iconsPresent: bool): MenuView
    decreases |events|
  {
    if events == [] then s
    else RunMenu(HandleMenu(s, events[0], iconsPresent), events[1..], iconsPresent)
  }

  /** menu hidden ⇔ aria-expanded "false" ⇔ menu icon shown ⇔ close icon
      hidden, with aria-expanded always "true" or "false". */
  predicate Consistent(s: MenuView, iconsPresent: bool) {
    (s.ariaExpanded == "true" || s.ariaExpanded == "false") &&
    (s.menuHidden <==> s.ariaExpanded == "false") &&
    (iconsPresent ==> s.menuIconHidden == !s.menuHidden && s.closeIconHidden == s.menuHidden)
  }

  /** The markup's starting state: menu hidden, not expanded, close icon hidden. */
  function InitialMenu(): MenuView {
    MenuView(true, "false", false, true)
  }

  /** Every handler keeps a consistent menu consistent. */
  lemma HandleKeepsConsistent(s: MenuView, e: MenuEvent, iconsPresent: bool)
    requires Consistent(s, iconsPresent)
    ensures Consistent(HandleMenu(s, e, iconsPresent), iconsPresent)
  {
    assert "true" != "false" by {
      assert "true"[0] != "false"[0];
    }
  }

  /** From the starting state, any sequence of events leaves the menu consistent. */
  lemma {:induction false} RunKeepsConsistent(s: MenuView, events: seq<MenuEvent>, iconsPresent: bool)
    requires Consistent(s, iconsPresent)
    ensures Consistent(RunMenu(s, events, iconsPresent), iconsPresent)
    decreases |events|
  {
    if events != [] {
      HandleKeepsConsistent(s, events[0], iconsPresent);
      RunKeepsConsistent(HandleMenu(s, events[0], iconsPresent), events[1..], iconsPresent);
    }
  }

  /** The starting state is consistent, so every reachable state is. */
  lemma ReachableMenusConsistent(events: seq<MenuEvent>, iconsPresent: bool)
    ensures Consistent(RunMenu(InitialMenu(), events, iconsPresent), iconsPresent)
  {
    assert "true" != "false" by {
      assert "true"[0] != "false"[0];
    }
    RunKeepsConsistent(InitialMenu(), events, iconsPresent);
  }

  /** Closing twice is closing once, and on a consistent menu closing leaves
      it hidden whatever it was. */
  lemma CloseIdempotent(s: MenuView, iconsPresent: bool)
    ensures Closed(Closed(s, iconsPresent), iconsPresent) == Closed(s, iconsPresent)
    ensures Closed(s, iconsPresent).menuHidden && Closed(s, iconsPresent).ariaExpanded == "false"
  {
  }

  /** Toggling twice restores a menu whose aria-expanded is "true" or "false". */
  lemma ToggleTwice(s: MenuView, iconsPresent: bool)
    requires s.ariaExpanded == "true" || s.ariaExpanded == "false"
    ensures Toggled(Toggled(s, iconsPresent), iconsPresent) == s
  {
    assert "true" != "false" by {
      assert "true"[0] != "false"[0];
    }
  }

  /** Escape on a hidden menu, and any key other than Escape, change nothing. */
  lemma EscapeOnHiddenMenu(s: MenuView, key: string, iconsPresent: bool)
    requires s.menuHidden || key != "Escape"
    ensures HandleMenu(s, KeyDown(key), iconsPresent) == s
  {
  }

  /** The four closing events agree: on a consistent open menu each of them
      closes it, and on a consistent closed menu each of them is a no-op. */
  lemma ClosingEventsAgree(s: MenuView, iconsPresent: bool, width: int)
    requires Consistent(s, iconsPresent) && width >= DesktopWidth
    ensures HandleMenu(s, MenuLinkClick, iconsPresent) == Closed(s, iconsPresent)
    ensures HandleMenu(s, DocumentClick(false, false), iconsPresent) == Closed(s, iconsPresent)
    ensures HandleMenu(s, WindowResize(width), iconsPresent) == Closed(s, iconsPresent)
    ensures !s.menuHidden ==> HandleMenu(s, KeyDown("Escape"), iconsPresent) == Closed(s, iconsPresent)
    ensures s.menuHidden ==> Closed(s, iconsPresent) == s
  {
  }

  /** The menu elements, once the button and the menu exist and the
      handlers are installed. */
  class MobileMenu {
    const iconsPresent: bool
    var menuHidden: bool
    var ariaExpanded: string
    var menuIconHidden: bool
    var closeIconHidden: bool
    var buttonFocused: bool

    function View(): MenuView
      reads this
    {
      MenuView(menuHidden, ariaExpanded, menuIconHidden, closeIconHidden)
    }

    constructor (iconsPresent: bool, initial: MenuView)
      ensures this.iconsPresent == iconsPresent && View() == initial && !buttonFocused
    {
      this.iconsPresent := iconsPresent;
      menuHidden := initial.menuHidden;
      ariaExpanded := initial.ariaExpanded;
      menuIconHidden := initial.menuIconHidden;
      closeIconHidden := initial.closeIconHidden;
      buttonFocused := false;
    }

    /** Resets the menu to closed, as four of the handlers do. */
    method Close()
      modifies this
      ensures View() == Closed(old(View()), iconsPresent) && buttonFocused == old(buttonFocused)
    {
      menuHidden := true;
      ariaExpanded := "false";
      if iconsPresent {
        menuIconHidden := false;
        closeIconHidden := true;
      }
    }

    method OnButtonClick()
      modifies this
      ensures View() == HandleMenu(old(View()), ButtonClick, iconsPresent)
      ensures buttonFocused == old(buttonFocused)
    {
      var isExpanded := ariaExpanded == "true";
      menuHidden := !menuHidden;
      ariaExpanded := if !isExpanded then "true" else "false";
      if iconsPresent {
        menuIconHidden := !menuIconHidden;
        closeIconHidden := !closeIconHidden;
      }
    }

    method OnMenuLinkClick()
      modifies this
      ensures View() == HandleMenu(old(View()), MenuLinkClick, iconsPresent)
      ensures buttonFocused == old(buttonFocused)
    {
      Close();
    }

    method OnDocumentClick(inButton: bool, inMenu: bool)
      modifies this
      ensures View() == HandleMenu(old(View()), DocumentClick(inButton, inMenu), iconsPresent)
      ensures buttonFocused == old(buttonFocused)
    {
      if !inButton && !inMenu {
        Close();
      }
    }

    /** Escape on an open menu also moves the focus back to the button. */
    method OnKeyDown(key: string)
      modifies this
      ensures View() == HandleMenu(old(View()), KeyDown(key), iconsPresent)
      ensures buttonFocused == (old(buttonFocused) || (key == "Escape" && !old(menuHidden)))
    {
      if key == "Escape" && !menuHidden {
        Close();
        buttonFocused := true;
      }
    }

    method OnWindowResize(innerWidth: int)
      modifies this
      ensures View() == HandleMenu(old(View()), WindowResize(innerWidth), iconsPresent)
      ensures buttonFocused == old(buttonFocused)
    {
      if innerWidth >= DesktopWidth {
        Close();
      }
    }
  }

  // ---------------------------------------------------------------------
  // Active nav link on scroll
  // ---------------------------------------------------------------------

  /** A `section` element: its id and its offsetTop and offsetHeight. */
  datatype Section = Section(id: string, top: int, height: int)

  /** An `a` element of the document: its href and whether it has class
      "nav-link". */
  datatype Anchor = Anchor(href: string, navLink: bool)

  /** The scroll handler looks 100 pixels below the top of the viewport. */
  const ScrollOffset: int := 100

  /** `scrollPos >= top && scrollPos < top + height`. */
  predicate Covers(sec: Section, scrollPos: int) {
    sec.top <= scrollPos < sec.top + sec.height
  }

  /** document.querySelector(`a[href="…"]`): the first anchor, in document
      order, with that href. */
  function FindAnchor(anchors: seq<Anchor>, href: string): (r: Option<nat>)
    ensures r.Some? ==>
      r.value < |anchors| && anchors[r.value].href == href &&
      forall j :: 0 <= j < r.value ==> anchors[j].href != href
    ensures r.None? ==> forall j :: 0 <= j < |anchors| ==> anchors[j].href != href
  {
    if anchors == [] then None
    else if anchors[0].href == href then Some(0)
    else match FindAnchor(anchors[1..], href)
      case None => None
      case Some(k) => Some(k + 1)
  }

  /** The work done for one section: when it covers the scroll position,
      every nav link loses the highlight and the section's link gains it. */
  function SectionStep(anchors: seq<Anchor>, h: seq<bool>, sec: Section, scrollPos: int): (r: seq<bool>)
    requires |h| == |anchors|
    ensures |r| == |h|
    ensures forall j :: 0 <= j < |h| && !anchors[j].navLink && h[j] ==> r[j]
    ensures forall j :: 0 <= j < |h| && r[j] && !h[j] ==>
      Covers(sec, scrollPos) && FindAnchor(anchors, "#" + sec.id) == Some(j)
  {
    if !Covers(sec, scrollPos) then h
    else
      var cleared := seq(|h|, j requires 0 <= j < |h| => if anchors[j].navLink then false else h[j]);
      match FindAnchor(anchors, "#" + sec.id)
      case None => cleared
      case Some(k) => cleared[k := true]
  }

  /** The handler's pass over the sections, in document order. */
  function Highlight(anchors: seq<Anchor>, h: seq<bool>, sections: seq<Section>, scrollPos: int): (r: seq<bool>)
    requires |h| == |anchors|
    ensures |r| == |h|
    decreases |sections|
  {
    if sections == [] then h
    else
      var n := |sections| - 1;
      SectionStep(anchors, Highlight(anchors, h, sections[..n], scrollPos), sections[n], scrollPos)
  }

  /** The last section, in document order, that covers the scroll position. */
  function LastCovering(sections: seq<Section>, scrollPos: int): (r: Option<nat>)
    ensures r.Some? ==>
      r.value < |sections| && Covers(sections[r.value], scrollPos) &&
      forall i :: r.value < i < |sections| ==> !Covers(sections[i], scrollPos)
    ensures r.None? ==> forall i :: 0 <= i < |sections| ==> !Covers(sections[i], scrollPos)
    decreases |sections|
  {
    if sections == [] then None
    else if Covers(sections[|sections| - 1], scrollPos) then Some(|sections| - 1)
    else LastCovering(sections[..|sections| - 1], scrollPos)
  }

  /** After the pass, a nav link is highlighted exactly when it is the link
      of the last covering section; with no covering section nothing changes. */
  lemma {:induction false} HighlightNavLink(anchors: seq<Anchor>, h: seq<bool>, sections: seq<Section>, scrollPos: int, j: nat)
    requires |h| == |anchors| && j < |anchors| && anchors[j].navLink
    ensures Highlight(anchors, h, sections, scrollPos)[j] ==
      match LastCovering(sections, scrollPos)
      case None => h[j]
      case Some(i) => FindAnchor(anchors, "#" + sections[i].id) == Some(j)
    decreases |sections|
  {
    if sections != [] {
      var n := |sections| - 1;
      HighlightNavLink(anchors, h, sections[..n], scrollPos, j);
      if !Covers(sections[n], scrollPos) {
        assert LastCovering(sections, scrollPos) == LastCovering(sections[..n], scrollPos);
        match LastCovering(sections[..n], scrollPos)
        case None =>
        case Some(i) =>
          assert sections[..n][i] == sections[i];
      }
    }
  }

  /** Section i covers the scroll position and its link is anchor j. */
  predicate LinksTo(anchors: seq<Anchor>, sections: seq<Section>, scrollPos: int, i: nat, j: nat)
    requires i < |sections|
  {
    Covers(sections[i], scrollPos) && FindAnchor(anchors, "#" + sections[i].id) == Some(j)
  }

  /** Some covering section has anchor j as its link. */
  predicate SomeSectionLinksTo(anchors: seq<Anchor>, sections: seq<Section>, scrollPos: int, j: nat) {
    exists i :: 0 <= i < |sections| && LinksTo(anchors, sections, scrollPos, i, j)
  }

  /** Splitting the last section off a list of sections. */
  lemma SomeSectionLinksToSnoc(anchors: seq<Anchor>, sections: seq<Section>, scrollPos: int, j: nat)
    requires sections != []
    ensures var n := |sections| - 1;
      SomeSectionLinksTo(anchors, sections, scrollPos, j) <==>
      SomeSectionLinksTo(anchors, sections[..n], scrollPos, j) || LinksTo(anchors, sections, scrollPos, n, j)
  {
    var n := |sections| - 1;
    if SomeSectionLinksTo(anchors, sections[..n], scrollPos, j) {
      var i :| 0 <= i < n && LinksTo(anchors, sections[..n], scrollPos, i, j);
      assert sections[..n][i] == sections[i];
      assert LinksTo(anchors, sections, scrollPos, i, j);
    }
    if SomeSectionLinksTo(anchors, sections, scrollPos, j) {
      var i :| 0 <= i < |sections| && LinksTo(anchors, sections, scrollPos, i, j);
      if i < n {
        assert sections[..n][i] == sections[i];
        assert LinksTo(anchors, sections[..n], scrollPos, i, j);
      }
    }
  }

  /** An anchor that is not a nav link is never un-highlighted: it ends up
      highlighted when it was, or when it is the link of a covering section. */
  lemma {:induction false} HighlightOtherAnchor(anchors: seq<Anchor>, h: seq<bool>, sections: seq<Section>, scrollPos: int, j: nat)
    requires |h| == |anchors| && j < |anchors| && !anchors[j].navLink
    ensures Highlight(anchors, h, sections, scrollPos)[j] <==>
      h[j] || SomeSectionLinksTo(anchors, sections, scrollPos, j)
    decreases |sections|
  {
    if sections != [] {
      var n := |sections| - 1;
      HighlightOtherAnchor(anchors, h, sections[..n], scrollPos, j);
      SomeSectionLinksToSnoc(anchors, sections, scrollPos, j);
    }
  }

  /** Once some section covers the scroll position, at most one nav link is
      highlighted. */
  lemma AtMostOneNavLinkHighlighted(anchors: seq<Anchor>, h: seq<bool>, sections: seq<Section>, scrollPos: int, j: nat, k: nat)
    requires |h| == |anchors| && j < k < |anchors| && anchors[j].navLink && anchors[k].navLink
    requires LastCovering(sections, scrollPos).Some?
    ensures !(Highlight(anchors, h, sections, scrollPos)[j] && Highlight(anchors, h, sections, scrollPos)[k])
  {
    HighlightNavLink(anchors, h, sections, scrollPos, j);
    HighlightNavLink(anchors, h, sections, scrollPos, k);
  }

  /** The `text-neon-cyan` class of every anchor of the document. */
  class NavBar {
    const anchors: seq<Anchor>
    var highlighted: array<bool>

    ghost predicate Valid()
      reads this
    {
      highlighted.Length == |anchors|
    }

    /** Setup captures the anchors; which of them the markup already shows
        highlighted is `initial`. */
    constructor (anchors: seq<Anchor>, initial: seq<bool>)
      requires |initial| == |anchors|
      ensures Valid() && this.anchors == anchors && fresh(highlighted)
      ensures highlighted[..] == initial
    {
      this.anchors := anchors;
      highlighted := new bool[|anchors|](j requires 0 <= j < |anchors| => initial[j]);
    }

    /** The throttled scroll handler: for each section in document order that
        covers `scrollY + 100`, clear every nav link and highlight the
        section's link. */
    method OnScroll(sections: seq<Section>, scrollY: int)
      requires Valid()
      modifies highlighted
      ensures highlighted[..] == Highlight(anchors, old(highlighted[..]), sections, scrollY + ScrollOffset)
    {
      var scrollPos := scrollY + ScrollOffset;
      var i := 0;
      while i < |sections|
        invariant 0 <= i <= |sections|
        invariant highlighted[..] == Highlight(anchors, old(highlighted[..]), sections[..i], scrollPos)
      {
        var section := sections[i];
        ghost var before := highlighted[..];
        if scrollPos >= section.top && scrollPos < section.top + section.height {
          var j := 0;
          while j < highlighted.Length
            invariant 0 <= j <= highlighted.Length
            invariant forall m :: 0 <= m < j ==>
              highlighted[m] == if anchors[m].navLink then false else before[m]
            invariant forall m :: j <= m < highlighted.Length ==> highlighted[m] == before[m]
          {
            if anchors[j].navLink {
              highlighted[j] := false;
            }
            j := j + 1;
          }
          var activeLink := FindAnchor(anchors, "#" + section.id);
          if activeLink.Some? {
            highlighted[activeLink.value] := true;
          }
        }
        assert sections[..i + 1][..i] == sections[..i];
        i := i + 1;
      }
      assert sections[..i] == sections;
    }
  }
}
