/**
 * The mobile navigation of initializeNavigation: the menu's open state with the
 * attributes that mirror it, the `active` marker on the `.nav-link` elements, and
 * the scroll handler that moves that marker to the link of the section under the
 * reference point `scrollY + 150`.
 */
module Navigation {
  import opened Wrappers

  /** A `.section` element as the scroll handler reads it: id, offsetTop, offsetHeight. */
  datatype Section = Section(id: string, top: int, height: nat)

  /** The scroll handler tests `window.scrollY + ScrollOffset` against each section. */
  const ScrollOffset: int := 150

  /** The section's half-open vertical range [offsetTop, offsetTop + offsetHeight) holds pos. */
  predicate Covers(s: Section, pos: int) {
    s.top <= pos < s.top + s.height
  }

  /** The href that the selector `.nav-link[href="#id"]` looks for. */
  function HrefFor(id: string): string {
    "#" + id
  }

  /** querySelector over the `.nav-link` elements: the first one, in document order, with that href. */
  function LinkFor(links: seq<string>, href: string): (r: Option<nat>)
    ensures r.None? <==> href !in links
    ensures r.Some? ==> r.value < |links| && links[r.value] == href
    ensures r.Some? ==> forall j :: 0 <= j < r.value ==> links[j] != href
  {
    if |links| == 0 then None
    else if links[0] == href then Some(0)
    else match LinkFor(links[1..], href)
      case None => None
      case Some(k) => Some(k + 1)
  }

  /** The link that section s makes active when the reference point is pos, if any. */
  function Target(s: Section, links: seq<string>, pos: int): Option<nat> {
    if Covers(s, pos) then LinkFor(links, HrefFor(s.id)) else None
  }

  /** A section that covers pos and has a link: one that the scroll handler acts on. */
  predicate Selects(s: Section, links: seq<string>, pos: int) {
    Covers(s, pos) && HrefFor(s.id) in links
  }

  /**
   * The link that the scroll handler leaves active: the target of the LAST section, in
   * document order, that selects one, since every match clears the others and the loop
   * never stops early.
   */
  function LastTarget(sections: seq<Section>, links: seq<string>, pos: int): (r: Option<nat>)
    ensures r.Some? ==> r.value < |links|
  {
    if |sections| == 0 then None
    else match Target(sections[|sections| - 1], links, pos)
      case Some(k) => Some(k)
      case None => LastTarget(sections[..|sections| - 1], links, pos)
  }

  /** Active flags in which exactly link k is active. */
  predicate OnlyActive(active: seq<bool>, k: nat) {
    k < |active| && forall j :: 0 <= j < |active| ==> (active[j] <==> j == k)
  }

  /** No two links are active at once. */
  predicate AtMostOneActive(active: seq<bool>) {
    forall i, j :: 0 <= i < |active| && 0 <= j < |active| && active[i] && active[j] ==> i == j
  }

  /** The flags after updateActiveNavLink(k): every `active` removed, then added to link k. */
  function Activated(n: nat, k: nat): seq<bool>
    requires k < n
  {
    seq(n, j => j == k)
  }

  /** The flags after one run of updateActiveNavOnScroll at the given scrollY. */
  function AfterScroll(active: seq<bool>, sections: seq<Section>, links: seq<string>, scrollY: int): seq<bool>
    requires |active| == |links|
  {
    match LastTarget(sections, links, scrollY + ScrollOffset)
      case Some(k) => Activated(|links|, k)
      case None => active
  }

  lemma ActivatedIsOnlyActive(n: nat, k: nat)
    requires k < n
    ensures OnlyActive(Activated(n, k), k) && AtMostOneActive(Activated(n, k))
  {
  }

  /** With no section selecting a link, the scroll handler changes nothing: the last match sticks. */
  lemma {:induction false} NoMatchKeepsActive(active: seq<bool>, sections: seq<Section>, links: seq<string>, scrollY: int)
    requires |active| == |links|
    requires forall i :: 0 <= i < |sections| ==> !Selects(sections[i], links, scrollY + ScrollOffset)
    ensures AfterScroll(active, sections, links, scrollY) == active
  {
    NoMatchNoTarget(sections, links, scrollY + ScrollOffset);
  }

  lemma {:induction false} NoMatchNoTarget(sections: seq<Section>, links: seq<string>, pos: int)
    requires forall i :: 0 <= i < |sections| ==> !Selects(sections[i], links, pos)
    ensures LastTarget(sections, links, pos) == None
  {
    if |sections| > 0 {
      var init := sections[..|sections| - 1];
      assert forall i :: 0 <= i < |init| ==> init[i] == sections[i];
      NoMatchNoTarget(init, links, pos);
    }
  }

  /**
   * When section i selects a link and no later section does, the scroll handler leaves
   * exactly one link active: the first `.nav-link` whose href is "#" + sections[i].id.
   */
  lemma {:induction false} LastMatchWins(sections: seq<Section>, links: seq<string>, pos: int, i: nat)
    requires i < |sections| && Selects(sections[i], links, pos)
    requires forall j :: i < j < |sections| ==> !Selects(sections[j], links, pos)
    ensures LastTarget(sections, links, pos) == LinkFor(links, HrefFor(sections[i].id))
  {
    var init := sections[..|sections| - 1];
    if i < |sections| - 1 {
      assert forall j :: 0 <= j < |init| ==> init[j] == sections[j];
      LastMatchWins(init, links, pos, i);
    }
  }

  /** Scroll resolution when some section selects a link: exactly one link is active afterwards. */
  lemma ScrollMatchLeavesOneActive(active: seq<bool>, sections: seq<Section>, links: seq<string>, scrollY: int, i: nat)
    requires |active| == |links|
    requires i < |sections| && Selects(sections[i], links, scrollY + ScrollOffset)
    requires forall j :: i < j < |sections| ==> !Selects(sections[j], links, scrollY + ScrollOffset)
    ensures OnlyActive(AfterScroll(active, sections, links, scrollY), LinkFor(links, HrefFor(sections[i].id)).value)
  {
    LastMatchWins(sections, links, scrollY + ScrollOffset, i);
  }

  /** The scroll handler never breaks the "at most one active link" invariant. */
  lemma AfterScrollKeepsAtMostOne(active: seq<bool>, sections: seq<Section>, links: seq<string>, scrollY: int)
    requires |active| == |links| && AtMostOneActive(active)
    ensures AtMostOneActive(AfterScroll(active, sections, links, scrollY))
  {
  }

  /** The scroll handler changed the flags only if some section selected a link. */
  lemma ChangeNeedsMatch(active: seq<bool>, sections: seq<Section>, links: seq<string>, scrollY: int)
    requires |active| == |links|
    requires AfterScroll(active, sections, links, scrollY) != active
    ensures exists i :: 0 <= i < |sections| && Selects(sections[i], links, scrollY + ScrollOffset)
  {
    if forall i :: 0 <= i < |sections| ==> !Selects(sections[i], links, scrollY + ScrollOffset) {
      NoMatchKeepsActive(active, sections, links, scrollY);
    }
  }

  /**
   * The navigation elements and the state the handlers of initializeNavigation change.
   * Handlers are registered only when both `.nav-toggle` and `.nav-links` exist (`wired`).
   */
  class NavMenu {
    /** Both `.nav-toggle` and `.nav-links` were found, so the listeners were added. */
    const wired: bool
    /** The hrefs of the `.nav-link` elements, in document order. */
    const links: seq<string>
    /** `.nav-links` has the class `open`. */
    var open: bool
    /** `.nav-toggle` has the class `active`. */
    var toggleActive: bool
    /** The `aria-expanded` attribute of `.nav-toggle`. */
    var ariaExpanded: string
    /** `document.body.style.overflow`. */
    var bodyOverflow: string
    /** Which `.nav-link` elements have the class `active`. */
    var active: seq<bool>

    predicate Valid()
      reads this
    {
      |active| == |links|
    }

    /** The toggle's class, its aria-expanded and the body overflow all agree with `open`. */
    predicate Mirrored()
      reads this
    {
      toggleActive == open
      && ariaExpanded == (if open then "true" else "false")
      && bodyOverflow == (if open then "hidden" else "")
    }

    /** The page as loaded: whatever the markup holds; initializeNavigation changes none of it. */
    constructor (hasToggle: bool, hasLinks: bool, links: seq<string>, open: bool, toggleActive: bool,
                 ariaExpanded: string, bodyOverflow: string, active: seq<bool>)
      requires |active| == |links|
      ensures Valid()
      ensures this.wired == (hasToggle && hasLinks) && this.links == links
      ensures this.open == open && this.toggleActive == toggleActive && this.active == active
      ensures this.ariaExpanded == ariaExpanded && this.bodyOverflow == bodyOverflow
    {
      this.wired := hasToggle && hasLinks;
      this.links := links;
      this.open := open;
      this.toggleActive := toggleActive;
      this.ariaExpanded := ariaExpanded;
      this.bodyOverflow := bodyOverflow;
      this.active := active;
    }

    method OpenMenu()
      modifies this`open, this`toggleActive, this`ariaExpanded, this`bodyOverflow
      ensures open && Mirrored()
    {
      open := true;
      toggleActive := true;
      ariaExpanded := "true";
      bodyOverflow := "hidden";
    }

    /** Every field it writes gets a constant, so closing an already closed menu changes nothing. */
    method CloseMenu()
      modifies this`open, this`toggleActive, this`ariaExpanded, this`bodyOverflow
      ensures !open && Mirrored()
      ensures !old(open) && old(Mirrored()) ==>
                toggleActive == old(toggleActive) && ariaExpanded == old(ariaExpanded) && bodyOverflow == old(bodyOverflow)
    {
      open := false;
      toggleActive := false;
      ariaExpanded := "false";
      bodyOverflow := "";
    }

    method ToggleMenu()
      modifies this`open, this`toggleActive, this`ariaExpanded, this`bodyOverflow
      ensures open == !old(open) && Mirrored()
    {
      if open {
        CloseMenu();
      } else {
        OpenMenu();
      }
    }

    /** A click on `.nav-toggle` (propagation stopped, so the document handler does not see it). */
    method OnToggleClick()
      modifies this`open, this`toggleActive, this`ariaExpanded, this`bodyOverflow
      ensures wired ==> open == !old(open) && Mirrored()
      ensures !wired ==> open == old(open) && toggleActive == old(toggleActive)
      ensures !wired ==> ariaExpanded == old(ariaExpanded) && bodyOverflow == old(bodyOverflow)
    {
      if wired {
        ToggleMenu();
      }
    }

    /** A click anywhere in the document; it closes the menu when it lands outside both elements. */
    method OnDocumentClick(insideLinks: bool, insideToggle: bool)
      modifies this`open, this`toggleActive, this`ariaExpanded, this`bodyOverflow
      ensures wired && !insideLinks && !insideToggle ==> !open && Mirrored()
      ensures !(wired && !insideLinks && !insideToggle) ==>
                open == old(open) && toggleActive == old(toggleActive)
                && ariaExpanded == old(ariaExpanded) && bodyOverflow == old(bodyOverflow)
    {
      if wired && !insideLinks && !insideToggle {
        CloseMenu();
      }
    }

    /** A keydown in the document; Escape closes the menu. */
    method OnKeyDown(key: string)
      modifies this`open, this`toggleActive, this`ariaExpanded, this`bodyOverflow
      ensures wired && key == "Escape" ==> !open && Mirrored()
      ensures !(wired && key == "Escape") ==>
                open == old(open) && toggleActive == old(toggleActive)
                && ariaExpanded == old(ariaExpanded) && bodyOverflow == old(bodyOverflow)
    {
      if wired && key == "Escape" {
        CloseMenu();
      }
    }

    /** updateActiveNavLink: remove `active` from every link, then add it to link k. */
    method UpdateActiveNavLink(k: nat)
      requires Valid() && k < |links|
      modifies this`active
      ensures Valid() && active == Activated(|links|, k)
    {
      var j := 0;
      while j < |active|
        invariant Valid() && 0 <= j <= |active|
        invariant forall m :: 0 <= m < j ==> !active[m]
      {
        active := active[j := false];
        j := j + 1;
      }
      active := active[k := true];
    }

    /** A click on `.nav-link` number k: the menu closes and that link alone is active. */
    method OnLinkClick(k: nat)
      requires Valid() && k < |links|
      modifies this`open, this`toggleActive, this`ariaExpanded, this`bodyOverflow, this`active
      ensures Valid()
      ensures wired ==> !open && Mirrored() && OnlyActive(active, k)
      ensures !wired ==> open == old(open) && toggleActive == old(toggleActive) && active == old(active)
      ensures !wired ==> ariaExpanded == old(ariaExpanded) && bodyOverflow == old(bodyOverflow)
    {
      if wired {
        CloseMenu();
        UpdateActiveNavLink(k);
        ActivatedIsOnlyActive(|links|, k);
      }
    }

    /**
     * updateActiveNavOnScroll, given the live layout of the `.section` elements: every
     * section whose range holds scrollY + 150 and that has a link makes that link the
     * only active one.
     */
    method OnScroll(scrollY: int, sections: seq<Section>)
      requires Valid()
      modifies this`active
      ensures Valid()
      ensures wired ==> active == AfterScroll(old(active), sections, links, scrollY)
      ensures !wired ==> active == old(active)
    {
      if !wired {
        return;
      }
      var pos := scrollY + ScrollOffset;
      var i := 0;
      while i < |sections|
        invariant Valid() && 0 <= i <= |sections|
        invariant active == AfterScroll(old(active), sections[..i], links, scrollY)
      {
        var s := sections[i];
        assert sections[..i + 1][..i] == sections[..i];
        if Covers(s, pos) {
          var link := LinkFor(links, HrefFor(s.id));
          if link.Some? {
            UpdateActiveNavLink(link.value);
          }
        }
        i := i + 1;
      }
      assert sections[..i] == sections;
    }
  }
}
