/**
 * The project card carousel: the arrow handler's step rule, the arrow
 * gating, each card's link and its tag cap.
 */
module ProjectCarousel {
  import opened Wrappers
  import opened Js
  import opened ScrollDom
  import opened SiteData
  import opened Projects

  /** The gap between project cards, in pixels. */
  const Gap := 20

  /**
   * One arrow step: the first card's width plus the gap, or 85% of the
   * container's width when it holds no card.
   */
  function Step(clientWidth: nat, firstCardWidth: Option<nat>): (step: real)
    ensures firstCardWidth.Some? ==> step == (firstCardWidth.value + Gap) as real
    ensures firstCardWidth.None? ==> step == 0.85 * clientWidth as real
    ensures step >= 0.0
    ensures firstCardWidth.Some? ==> step >= Gap as real
  {
    match firstCardWidth
    case Some(w) => (w + Gap) as real
    case None => clientWidth as real * 0.85
  }

  /**
   * `scrollProjects(direction)`: nothing without a container; otherwise
   * exactly one scroll, one step in the chosen direction.
   */
  method ScrollProjects(el: ScrollContainer?, dir: Direction)
    modifies el
    ensures el != null ==> el.scrolls == old(el.scrolls) + [Signed(dir, Step(el.clientWidth, el.firstCardWidth))]
    ensures el != null ==> Sum(el.scrolls) == Sum(old(el.scrolls)) + Signed(dir, Step(el.clientWidth, el.firstCardWidth))
  {
    if el == null {
      return;
    }
    var step := Step(el.clientWidth, el.firstCardWidth);
    el.ScrollBy(Signed(dir, step));
  }

  /** A left arrow click followed by a right one leaves the carousel where it was. */
  method LeftThenRight(el: ScrollContainer)
    modifies el
    ensures |el.scrolls| == |old(el.scrolls)| + 2
    ensures Sum(el.scrolls) == Sum(old(el.scrolls))
  {
    ScrollProjects(el, Left);
    ScrollProjects(el, Right);
    LeftRightCancel(Step(el.clientWidth, el.firstCardWidth));
  }

  /** The link of a card: the detail page of the project whose slug is the card's id. */
  function CardHref(card: ProjectCard): (href: string)
    ensures RouteSlug(href) == Some(card.id)
  {
    RouteRoundTrip(card.id);
    ProjectRoute(card.id)
  }

  /** `tags.slice(0, 3)`: the first three tags, or all of them when there are fewer. */
  function ShownTags(tags: seq<string>): (shown: seq<string>)
    ensures |tags| >= 3 ==> shown == tags[..3]
    ensures |tags| < 3 ==> shown == tags
  {
    Slice(tags, 0, 3)
  }

  /** Every card's link lands on the detail record carrying the card's id. */
  lemma CardLinksResolve(i: nat)
    requires i < |ProjectCards|
    ensures GetProjectBySlug(RouteSlug(CardHref(ProjectCards[i])).value).Some?
    ensures GetProjectBySlug(RouteSlug(CardHref(ProjectCards[i])).value).value.slug == ProjectCards[i].id
  {
    var j := if i == 0 then 0 else if i == 1 then 1 else if i == 2 then 4 else if i == 3 then 3 else if i == 4 then 2 else 5;
    assert ProjectDetails[j].slug == ProjectCards[i].id;
  }

  /** The carousel holds six cards, so its arrows are shown, and each shows at most three tags. */
  lemma CarouselContents()
    ensures ArrowsShown(|ProjectCards|)
    ensures forall i :: 0 <= i < |ProjectCards| ==> |ShownTags(ProjectCards[i].tags)| <= 3
    ensures ShownTags(ProjectCards[0].tags) == ["Node.js", "OpenAI", "AWS S3"]
  {
  }
}
