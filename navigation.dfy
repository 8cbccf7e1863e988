/**
 * The navigation bar's links and the page's sections, as values: which link is marked
 * active for a section id, and which section the scroll position is in.
 */
module Navigation {
  import opened Options

  /** A `.nav-link` element: its `href` attribute and whether it carries the `active` class. */
  datatype NavLink = NavLink(href: string, active: bool)

  /** A `section[id]` element: its id and its `offsetTop` and `offsetHeight`. */
  datatype Section = Section(id: string, top: int, height: int)

  /** What `highlightActiveNavLink` adds to `scrollY` to allow for the fixed header. */
  const HeaderOffset := 150

  /** The position lies in the section's vertical range, top included, bottom excluded. */
  predicate Covers(s: Section, pos: int) {
    s.top <= pos < s.top + s.height
  }

  /**
   * The links after `updateActiveNavLink(activeId)`: each link keeps its href and is active
   * exactly when its href is "#" followed by the id; the old flags play no part.
   */
  function Activated(links: seq<NavLink>, activeId: string): (r: seq<NavLink>)
    ensures |r| == |links|
    ensures forall k | 0 <= k < |r| :: r[k].href == links[k].href && (r[k].active <==> links[k].href == "#" + activeId)
  {
    if links == [] then []
    else [NavLink(links[0].href, links[0].href == "#" + activeId)] + Activated(links[1..], activeId)
  }

  /** Activating a section twice is the same as activating it once. */
  lemma ActivatedIdempotent(links: seq<NavLink>, activeId: string)
    ensures Activated(Activated(links, activeId), activeId) == Activated(links, activeId)
  {
  }

  /** The result depends only on the hrefs, not on which links were active before. */
  lemma ActivatedForgetsFlags(a: seq<NavLink>, b: seq<NavLink>, activeId: string)
    requires |a| == |b|
    requires forall k | 0 <= k < |a| :: a[k].href == b[k].href
    ensures Activated(a, activeId) == Activated(b, activeId)
  {
  }

  /** The index of the last section, in document order, whose range holds `pos`. */
  function LastCovering(sections: seq<Section>, pos: int): (r: Option<nat>)
    ensures r.Some? ==> r.value < |sections| && Covers(sections[r.value], pos)
    ensures r.Some? ==> forall j | r.value < j < |sections| :: !Covers(sections[j], pos)
    ensures r.None? ==> forall j | 0 <= j < |sections| :: !Covers(sections[j], pos)
  {
    if sections == [] then None
    else if Covers(sections[|sections| - 1], pos) then Some(|sections| - 1)
    else LastCovering(sections[..|sections| - 1], pos)
  }

  /** The id `highlightActiveNavLink` settles on: that of the last covering section, or "" if none. */
  function CurrentSectionId(sections: seq<Section>, pos: int): (id: string)
    ensures (forall j | 0 <= j < |sections| :: !Covers(sections[j], pos)) ==> id == ""
    ensures id != "" ==> exists k | 0 <= k < |sections| :: Covers(sections[k], pos) && sections[k].id == id
    ensures forall k | 0 <= k < |sections| && Covers(sections[k], pos) && id != sections[k].id ::
      exists j | k < j < |sections| :: Covers(sections[j], pos)
  {
    match LastCovering(sections, pos)
    case None => ""
    case Some(k) => sections[k].id
  }
}
