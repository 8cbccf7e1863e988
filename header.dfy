/** The rule of the header's scroll handler: hide when scrolling down below the first 100 pixels. */
module HeaderScroll {

  /** Scroll offsets up to this one never hide the header. */
  const HideThreshold := 100

  /** The header is hidden when the page moved down since the last event and is past the threshold. */
  predicate HidesHeader(scrollTop: int, lastScrollTop: int) {
    scrollTop > lastScrollTop && scrollTop > HideThreshold
  }

  /**
   * The value stored as `lastScrollTop` after an event: negative offsets (overscroll) are
   * stored as 0, so the stored value is the larger of the offset and 0.
   */
  function StoredScrollTop(scrollTop: int): (r: nat)
    ensures r >= scrollTop
    ensures r == scrollTop || r == 0
  {
    if scrollTop <= 0 then 0 else scrollTop
  }
}
