/**
 * The home page's highlights carousel: the arrow handler's step rule and
 * the arrow gating.
 */
module HomePage {
  import opened Wrappers
  import opened ScrollDom
  import opened SiteData

  /** The gap between highlight cards, in pixels. */
  const Gap := 24

  /**
   * One arrow step: the first card's width plus the gap, or the whole
   * container width when it holds no card.
   */
  function Step(clientWidth: nat, firstCardWidth: Option<nat>): (step: real)
    ensures firstCardWidth.Some? ==> step == (firstCardWidth.value + Gap) as real
    ensures firstCardWidth.None? ==> step == clientWidth as real
    ensures step >= 0.0
  {
    match firstCardWidth
    case Some(w) => (w + Gap) as real
    case None => clientWidth as real
  }

  /**
   * `scrollHighlights(direction)`: nothing without a container; otherwise
   * exactly one scroll, one step in the chosen direction.
   */
  method ScrollHighlights(el: ScrollContainer?, dir: Direction)
    modifies el
    ensures el != null ==> el.scrolls == old(el.scrolls) + [Signed(dir, Step(el.clientWidth, el.firstCardWidth))]
    ensures el != null ==> Sum(el.scrolls) == Sum(old(el.scrolls)) + Signed(dir, Step(el.clientWidth, el.firstCardWidth))
  {
    if el == null {
      return;
    }
    var step := Step(el.clientWidth, el.firstCardWidth);
    el.ScrollBy(Signed(dir, step));
  }

  /** Scrolling right then left from a container whose cards are 800 wide moves 824 and back. */
  method RightThenLeft() returns (deltas: seq<real>, net: real)
    ensures deltas == [824.0, -824.0] && net == 0.0
  {
    var el := new ScrollContainer(1000, Some(800));
    ScrollHighlights(el, Right);
    ScrollHighlights(el, Left);
    deltas, net := el.scrolls, Sum(el.scrolls);
    assert el.scrolls[..1] == [824.0];
  }

  /** With four highlight images the arrows are shown. */
  lemma HighlightArrowsShown()
    ensures ArrowsShown(|HighlightImages|)
  {
  }
}
