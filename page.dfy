/**
 * The page's mutable state and the browser events that change it. The DOM is replaced
 * by plain values: the mobile menu's two `active` flags, the navigation links, the
 * header's remembered scroll offset, and the body's children together with the
 * notification timers and click handlers that are pending. Each timer or handler is a
 * set (or multiset) of the ids of the notifications it belongs to, and its firing is a
 * method that the caller may invoke only while it is pending.
 */
module Page {
  import opened ContactForm
  import opened Navigation
  import opened HeaderScroll
  import opened Notifications

  /** Where a click lands: the element `e.target` is, or lies inside. */
  datatype Target =
    | OnToggle                // the mobile-menu toggle button
    | InMenu                  // the navigation menu, away from its links
    | InNotice(id: nat)       // a notification, away from its close button
    | OnCloseButton(id: nat)  // the close button of a notification
    | Elsewhere

  /** `notification.contains(e.target)` for the notification `id`. */
  predicate InsideNotice(target: Target, id: nat) {
    target == InNotice(id) || target == OnCloseButton(id)
  }

  /** The registered outside-click handlers that act on a click: those whose notification does not contain the target. */
  function Fired(handlers: set<nat>, target: Target): (fired: set<nat>)
    ensures fired <= handlers
    ensures forall h | h in handlers :: h in fired <==> !InsideNotice(target, h)
  {
    set h | h in handlers && !InsideNotice(target, h)
  }

  /** The hash link `href` names an element of the page: `getElementById` finds a section for it. */
  predicate NamesSection(href: string, sections: seq<Section>) {
    |href| > 1 && href[0] == '#' && exists j | 0 <= j < |sections| :: sections[j].id == href[1..]
  }

  /** The toggle button and the menu, each with its `active` class. */
  class MobileMenu {
    var toggleActive: bool
    var menuActive: bool

    /** Every handler sets or flips both classes together. */
    ghost predicate Valid()
      reads this
    {
      toggleActive == menuActive
    }

    constructor ()
      ensures Valid() && !toggleActive && !menuActive
    {
      toggleActive, menuActive := false, false;
    }

    /** The toggle's click listener: both classes flip. */
    method Toggle()
      requires Valid()
      modifies this
      ensures Valid()
      ensures toggleActive == !old(toggleActive) && menuActive == !old(menuActive)
    {
      toggleActive := !toggleActive;
      menuActive := !menuActive;
    }

    /** Both classes removed, as a click on a navigation link does. */
    method Close()
      modifies this
      ensures Valid() && !toggleActive && !menuActive
    {
      toggleActive, menuActive := false, false;
    }

    /** The document's click listener: an open menu closes on a click outside both the toggle and the menu. */
    method OnDocumentClick(target: Target)
      requires Valid()
      modifies this
      ensures Valid()
      ensures old(menuActive) && target != OnToggle && target != InMenu ==> !toggleActive && !menuActive
      ensures !(old(menuActive) && target != OnToggle && target != InMenu) ==>
        toggleActive == old(toggleActive) && menuActive == old(menuActive)
    {
      if menuActive && target != OnToggle && target != InMenu {
        toggleActive, menuActive := false, false;
      }
    }
  }

  /** The navigation links and the page's sections, whose layout does not change. */
  class NavBar {
    var links: seq<NavLink>
    const sections: seq<Section>

    constructor (links: seq<NavLink>, sections: seq<Section>)
      ensures this.links == links && this.sections == sections
    {
      this.links := links;
      this.sections := sections;
    }

    /** `updateActiveNavLink`: one pass over the links, clearing each flag and setting it on a matching href. */
    method UpdateActiveNavLink(activeId: string)
      modifies this
      ensures links == Activated(old(links), activeId)
    {
      var i := 0;
      while i < |links|
        invariant 0 <= i <= |links| == |old(links)|
        invariant forall k | 0 <= k < i :: links[k] == NavLink(old(links)[k].href, old(links)[k].href == "#" + activeId)
        invariant forall k | i <= k < |links| :: links[k] == old(links)[k]
      {
        links := links[i := NavLink(links[i].href, links[i].href == "#" + activeId)];
        i := i + 1;
      }
      var spec := Activated(old(links), activeId);
      assert forall k | 0 <= k < |links| :: links[k] == spec[k];
    }

    /** The scan of `highlightActiveNavLink`: each section whose range holds the position overwrites the current id. */
    method CurrentSection(scrollPosition: int) returns (current: string)
      ensures current == CurrentSectionId(sections, scrollPosition)
    {
      current := "";
      var i := 0;
      while i < |sections|
        invariant 0 <= i <= |sections|
        invariant current == CurrentSectionId(sections[..i], scrollPosition)
      {
        var section := sections[i];
        if scrollPosition >= section.top && scrollPosition < section.top + section.height {
          current := section.id;
        }
        assert sections[..i + 1][..i] == sections[..i];
        i := i + 1;
      }
      assert sections[..i] == sections;
    }

    /**
     * `highlightActiveNavLink`: the links are activated for the last section holding
     * `scrollY + 150`; when there is none, or its id is empty, no link changes.
     */
    method HighlightActiveNavLink(scrollY: int)
      modifies this
      ensures var current := CurrentSectionId(sections, scrollY + HeaderOffset);
        links == if current == "" then old(links) else Activated(old(links), current)
    {
      var current := CurrentSection(scrollY + HeaderOffset);
      if current != "" {
        UpdateActiveNavLink(current);
      }
    }
  }

  /** The fixed header: the last scroll offset seen and whether the header is slid out of view. */
  class StickyHeader {
    var lastScrollTop: int
    var hidden: bool

    ghost predicate Valid()
      reads this
    {
      lastScrollTop >= 0
    }

    constructor ()
      ensures Valid() && lastScrollTop == 0 && !hidden
    {
      lastScrollTop, hidden := 0, false;
    }

    /** The header's scroll listener. */
    method OnScroll(scrollTop: int)
      requires Valid()
      modifies this
      ensures Valid()
      ensures hidden <==> scrollTop > old(lastScrollTop) && scrollTop > HideThreshold
      ensures lastScrollTop == StoredScrollTop(scrollTop)
    {
      hidden := HidesHeader(scrollTop, lastScrollTop);
      lastScrollTop := if scrollTop <= 0 then 0 else scrollTop;
    }
  }

  /**
   * The notification system: the body's children and, per notification id, the pending
   * 5000 ms auto-remove timers, the pending 500 ms timers that register the outside-click
   * handler, the registered outside-click handlers, and the pending 300 ms detach timers
   * (a multiset, since removing a notification twice schedules two).
   */
  class Notifier {
    var body: seq<Child>
    var nextId: nat
    var autoTimers: set<nat>
    var graceTimers: set<nat>
    var outsideHandlers: set<nat>
    var detachTimers: multiset<nat>

    /** At most one notification is attached, and every id in use was handed out before `nextId`. */
    ghost predicate Valid()
      reads this
    {
      && |NoticesOf(body)| <= 1
      && IdsBelow(body, nextId)
      && (forall id | id in autoTimers :: id < nextId)
      && (forall id | id in graceTimers :: id < nextId)
      && (forall id | id in outsideHandlers :: id < nextId)
      && (forall id | id in detachTimers :: id < nextId)
    }

    /** The page as loaded: the given elements and no notification. */
    constructor (others: seq<string>)
      ensures Valid()
      ensures |body| == |others| && forall k | 0 <= k < |others| :: body[k] == Other(others[k])
      ensures nextId == 0 && autoTimers == {} && graceTimers == {} && outsideHandlers == {} && detachTimers == multiset{}
    {
      var children := seq(|others|, k requires 0 <= k < |others| => Other(others[k]));
      NoticesOfNone(children);
      body := children;
      nextId := 0;
      autoTimers, graceTimers, outsideHandlers := {}, {}, {};
      detachTimers := multiset{};
    }

    /**
     * `showNotification`: every notification child is removed at once, with no exit
     * animation and without cancelling its timers or handlers, and a new one is appended;
     * its auto-remove timer and its handler-registering timer start.
     */
    method Show(message: string, kind: string)
      requires Valid()
      modifies this
      ensures Valid()
      ensures body == OthersOf(old(body)) + [Notice(old(nextId), kind, message, false)]
      ensures NoticesOf(body) == [Notice(old(nextId), kind, message, false)]
      ensures OthersOf(body) == OthersOf(old(body))
      ensures nextId == old(nextId) + 1
      ensures autoTimers == old(autoTimers) + {old(nextId)}
      ensures graceTimers == old(graceTimers) + {old(nextId)}
      ensures outsideHandlers == old(outsideHandlers) && detachTimers == old(detachTimers)
      ensures old(nextId) !in old(autoTimers) && old(nextId) !in old(graceTimers)
      ensures old(nextId) !in old(outsideHandlers) && old(nextId) !in old(detachTimers)
    {
      var id := nextId;
      var n := Notice(id, kind, message, false);
      var shown := OthersOf(body) + [n];
      ShowLeavesOnlyNew(body, n);
      assert |NoticesOf(shown)| <= 1 && IdsBelow(shown, id + 1);
      body, nextId := shown, id + 1;
      autoTimers, graceTimers := autoTimers + {id}, graceTimers + {id};
    }

    /**
     * `removeNotification`: nothing happens to a notification that is not attached;
     * otherwise its exit styles are applied and a detach timer starts.
     */
    method Remove(id: nat)
      requires Valid()
      modifies this
      ensures Valid()
      ensures IsAttached(old(body), id) ==>
        body == MarkExiting(old(body), id) && detachTimers == old(detachTimers) + multiset{id}
      ensures !IsAttached(old(body), id) ==> body == old(body) && detachTimers == old(detachTimers)
      ensures nextId == old(nextId) && autoTimers == old(autoTimers)
      ensures graceTimers == old(graceTimers) && outsideHandlers == old(outsideHandlers)
    {
      if IsAttached(body, id) {
        MarkExitingKeeps(body, id);
        body := MarkExiting(body, id);
        detachTimers := detachTimers + multiset{id};
      }
    }

    /** The 5000 ms timer of notification `id` fires. */
    method AutoTimeout(id: nat)
      requires Valid() && id in autoTimers
      modifies this
      ensures Valid()
      ensures autoTimers == old(autoTimers) - {id}
      ensures IsAttached(old(body), id) ==>
        body == MarkExiting(old(body), id) && detachTimers == old(detachTimers) + multiset{id}
      ensures !IsAttached(old(body), id) ==> body == old(body) && detachTimers == old(detachTimers)
      ensures nextId == old(nextId) && graceTimers == old(graceTimers) && outsideHandlers == old(outsideHandlers)
    {
      autoTimers := autoTimers - {id};
      Remove(id);
    }

    /** The 500 ms timer of notification `id` fires and registers its outside-click handler on the document. */
    method GraceElapsed(id: nat)
      requires Valid() && id in graceTimers
      modifies this
      ensures Valid()
      ensures graceTimers == old(graceTimers) - {id} && outsideHandlers == old(outsideHandlers) + {id}
      ensures body == old(body) && nextId == old(nextId)
      ensures autoTimers == old(autoTimers) && detachTimers == old(detachTimers)
    {
      graceTimers := graceTimers - {id};
      outsideHandlers := outsideHandlers + {id};
    }

    /**
     * One 300 ms detach timer of notification `id` fires: the node is taken out of the
     * body if it is still attached, so a second timer for the same node does nothing.
     */
    method DetachTimerFires(id: nat)
      requires Valid() && id in detachTimers
      modifies this
      ensures Valid()
      ensures detachTimers == old(detachTimers) - multiset{id}
      ensures body == if IsAttached(old(body), id) then Detach(old(body), id) else old(body)
      ensures !IsAttached(body, id) && OthersOf(body) == OthersOf(old(body))
      ensures IsAttached(old(body), id) ==> NoticesOf(body) == []
      ensures nextId == old(nextId) && autoTimers == old(autoTimers)
      ensures graceTimers == old(graceTimers) && outsideHandlers == old(outsideHandlers)
    {
      detachTimers := detachTimers - multiset{id};
      DetachFacts(body, id);
      if IsAttached(body, id) {
        DetachKeepsIdsBelow(body, id, nextId);
        DetachLeavesNone(body, id);
        body := Detach(body, id);
      }
    }

    /** The close button's click listener: the auto-remove timer is cancelled and the notification removed. */
    method CloseClicked(id: nat)
      requires Valid()
      modifies this
      ensures Valid()
      ensures autoTimers == old(autoTimers) - {id}
      ensures IsAttached(old(body), id) ==>
        body == MarkExiting(old(body), id) && detachTimers == old(detachTimers) + multiset{id}
      ensures !IsAttached(old(body), id) ==> body == old(body) && detachTimers == old(detachTimers)
      ensures nextId == old(nextId) && graceTimers == old(graceTimers) && outsideHandlers == old(outsideHandlers)
    {
      autoTimers := autoTimers - {id};
      Remove(id);
    }

    /**
     * A click reaches the document: every registered outside-click handler whose
     * notification does not contain the target cancels that notification's auto-remove
     * timer, removes it and deregisters itself. Only the attached notification, if its
     * handler is among them, changes; the others are already detached.
     */
    method OnDocumentClick(target: Target)
      requires Valid()
      modifies this
      ensures Valid()
      ensures var fired := Fired(old(outsideHandlers), target);
        outsideHandlers == old(outsideHandlers) - fired && autoTimers == old(autoTimers) - fired
      ensures var fired := Fired(old(outsideHandlers), target);
        forall h | h in fired && IsAttached(old(body), h) ::
          body == MarkExiting(old(body), h) && detachTimers == old(detachTimers) + multiset{h}
      ensures var fired := Fired(old(outsideHandlers), target);
        (forall h | h in fired :: !IsAttached(old(body), h)) ==> body == old(body) && detachTimers == old(detachTimers)
      ensures nextId == old(nextId) && graceTimers == old(graceTimers)
    {
      var fired := Fired(outsideHandlers, target);
      autoTimers := autoTimers - fired;
      outsideHandlers := outsideHandlers - fired;
      var attached := AttachedId(body);
      if attached.Some? && attached.value in fired {
        Remove(attached.value);
      }
    }
  }

  /**
   * The page: its four stateful parts, each its own object, and the pending 1200 ms
   * timers of accepted contact forms, each holding the trimmed name it will thank.
   */
  class Site {
    const menu: MobileMenu
    const nav: NavBar
    const header: StickyHeader
    const notifier: Notifier
    var sending: multiset<string>

    ghost predicate Valid()
      reads this, menu, header, notifier
    {
      menu.Valid() && header.Valid() && notifier.Valid()
    }

    /** The page once its scripts have run: menu closed, header shown, no notification. */
    constructor (links: seq<NavLink>, sections: seq<Section>, others: seq<string>)
      ensures Valid()
      ensures fresh(menu) && fresh(nav) && fresh(header) && fresh(notifier)
      ensures !menu.menuActive && !header.hidden && header.lastScrollTop == 0
      ensures nav.links == links && nav.sections == sections
      ensures |notifier.body| == |others| && forall k | 0 <= k < |others| :: notifier.body[k] == Other(others[k])
      ensures notifier.autoTimers == {} && notifier.graceTimers == {} && notifier.outsideHandlers == {}
      ensures notifier.detachTimers == multiset{} && sending == multiset{}
    {
      sending := multiset{};
      menu := new MobileMenu();
      nav := new NavBar(links, sections);
      header := new StickyHeader();
      notifier := new Notifier(others);
    }

    /** A click on the menu toggle: its listener flips the menu and stops the click there. */
    method ToggleClick()
      requires Valid()
      modifies menu
      ensures Valid()
      ensures menu.menuActive == !old(menu.menuActive) && menu.toggleActive == !old(menu.toggleActive)
    {
      menu.Toggle();
    }

    /**
     * A click that reaches the document's listeners (anything but the toggle, a navigation
     * link or a close button): an open menu closes unless the click is inside it, and the
     * outside-click handlers of the notifications that do not contain the target act.
     */
    method DocumentClick(target: Target)
      requires Valid()
      requires !target.OnToggle? && !target.OnCloseButton?
      requires target.InNotice? ==> IsAttached(notifier.body, target.id)
      modifies menu, notifier
      ensures Valid()
      ensures target != InMenu ==> !menu.menuActive && !menu.toggleActive
      ensures target == InMenu ==> menu.menuActive == old(menu.menuActive) && menu.toggleActive == old(menu.toggleActive)
      ensures var fired := Fired(old(notifier.outsideHandlers), target);
        notifier.outsideHandlers == old(notifier.outsideHandlers) - fired && notifier.autoTimers == old(notifier.autoTimers) - fired
      ensures var fired := Fired(old(notifier.outsideHandlers), target);
        forall h | h in fired && IsAttached(old(notifier.body), h) ::
          notifier.body == MarkExiting(old(notifier.body), h) && notifier.detachTimers == old(notifier.detachTimers) + multiset{h}
      ensures var fired := Fired(old(notifier.outsideHandlers), target);
        (forall h | h in fired :: !IsAttached(old(notifier.body), h)) ==>
          notifier.body == old(notifier.body) && notifier.detachTimers == old(notifier.detachTimers)
      ensures notifier.nextId == old(notifier.nextId) && notifier.graceTimers == old(notifier.graceTimers)
    {
      menu.OnDocumentClick(target);
      notifier.OnDocumentClick(target);
    }

    /**
     * A click on the close button of the attached notification `id`: the button's listener
     * cancels the auto-remove timer and removes the notification; the click then bubbles
     * to the document, where the menu closes and the outside-click handlers of the
     * superseded notifications deregister, while the clicked one's own handler ignores it.
     */
    method CloseButtonClick(id: nat)
      requires Valid() && IsAttached(notifier.body, id)
      modifies menu, notifier
      ensures Valid()
      ensures !menu.menuActive && !menu.toggleActive
      ensures var fired := Fired(old(notifier.outsideHandlers), OnCloseButton(id));
        && id !in fired
        && notifier.outsideHandlers == old(notifier.outsideHandlers) - fired
        && notifier.autoTimers == old(notifier.autoTimers) - {id} - fired
      ensures notifier.body == MarkExiting(old(notifier.body), id)
      ensures notifier.detachTimers == old(notifier.detachTimers) + multiset{id}
      ensures notifier.nextId == old(notifier.nextId) && notifier.graceTimers == old(notifier.graceTimers)
    {
      var before := notifier.body;
      notifier.CloseClicked(id);
      MarkExitingKeeps(before, id);
      // only the clicked notification is attached, and its own handler ignores the click
      OnlyOneAttached(notifier.body, id);
      var fired := Fired(notifier.outsideHandlers, OnCloseButton(id));
      assert forall h | h in fired :: !IsAttached(notifier.body, h);
      menu.OnDocumentClick(OnCloseButton(id));
      notifier.OnDocumentClick(OnCloseButton(id));
    }

    /**
     * A click on a navigation link; it does not propagate. When the link names a section,
     * the menu closes and that section's links become active; otherwise nothing changes.
     */
    method NavLinkClick(k: nat)
      requires Valid() && k < |nav.links|
      modifies menu, nav
      ensures Valid()
      ensures NamesSection(old(nav.links[k].href), nav.sections) ==>
        !menu.menuActive && !menu.toggleActive && nav.links == Activated(old(nav.links), old(nav.links[k].href)[1..])
      ensures !NamesSection(old(nav.links[k].href), nav.sections) ==> unchanged(menu) && nav.links == old(nav.links)
    {
      var href := nav.links[k].href;
      if |href| > 0 && href[0] == '#' {
        var targetId := href[1..];
        var found := exists j | 0 <= j < |nav.sections| :: nav.sections[j].id == targetId;
        if targetId != "" && found {
          menu.Close();
          nav.UpdateActiveNavLink(targetId);
        }
      }
    }

    /**
     * The contact form is submitted: a rejected form shows its notice as an error
     * notification; an accepted one starts the timer of its simulated sending.
     */
    method SubmitContact(nameValue: string, emailValue: string, messageValue: string) returns (v: Verdict)
      requires Valid()
      modifies this, notifier
      ensures Valid()
      ensures v == Validate(nameValue, emailValue, messageValue)
      ensures v.Accepted? ==> unchanged(notifier) && sending == old(sending) + multiset{v.name}
      ensures v.Rejected? ==> sending == old(sending)
      ensures v.Rejected? ==>
        && notifier.body == OthersOf(old(notifier.body)) + [Notice(old(notifier.nextId), "error", v.notice, false)]
        && notifier.nextId == old(notifier.nextId) + 1
        && notifier.autoTimers == old(notifier.autoTimers) + {old(notifier.nextId)}
        && notifier.graceTimers == old(notifier.graceTimers) + {old(notifier.nextId)}
        && notifier.outsideHandlers == old(notifier.outsideHandlers)
        && notifier.detachTimers == old(notifier.detachTimers)
    {
      v := Validate(nameValue, emailValue, messageValue);
      if v.Rejected? {
        notifier.Show(v.notice, "error");
      } else {
        sending := sending + multiset{v.name};
      }
    }

    /** The 1200 ms timer of an accepted form fires: the sender is thanked in a success notification. */
    method SendingDone(name: string)
      requires Valid() && name in sending
      modifies this, notifier
      ensures Valid()
      ensures sending == old(sending) - multiset{name}
      ensures notifier.body == OthersOf(old(notifier.body)) + [Notice(old(notifier.nextId), "success", ThanksNotice(name), false)]
      ensures NoticesOf(notifier.body) == [Notice(old(notifier.nextId), "success", ThanksNotice(name), false)]
      ensures notifier.nextId == old(notifier.nextId) + 1
      ensures notifier.autoTimers == old(notifier.autoTimers) + {old(notifier.nextId)}
      ensures notifier.graceTimers == old(notifier.graceTimers) + {old(notifier.nextId)}
      ensures notifier.outsideHandlers == old(notifier.outsideHandlers)
      ensures notifier.detachTimers == old(notifier.detachTimers)
    {
      sending := sending - multiset{name};
      notifier.Show(ThanksNotice(name), "success");
    }
  }
}
