/**
 * The horizontal scroll container the two carousels drive, reduced to
 * what their arrow handlers read and do: the container's `clientWidth`,
 * the `offsetWidth` of the first card its selector finds (if any), and
 * the log of `scrollBy` deltas issued to it.
 */
module ScrollDom {
  import opened Wrappers

  datatype Direction = Left | Right

  /** `direction === "left" ? -step : step`. */
  function Signed(dir: Direction, step: real): (delta: real)
    ensures dir == Left ==> delta == -step
    ensures dir == Right ==> delta == step
  {
    if dir == Left then -step else step
  }

  /** The left delta and the right delta of one step undo each other. */
  lemma LeftRightCancel(step: real)
    ensures Signed(Left, step) + Signed(Right, step) == 0.0
  {
  }

  /** The net horizontal displacement of a log of scroll deltas. */
  function Sum(deltas: seq<real>): real
  {
    if deltas == [] then 0.0 else Sum(deltas[..|deltas| - 1]) + deltas[|deltas| - 1]
  }

  /** `xs.length > 1`: the arrow buttons are rendered only when there is something to scroll to. */
  predicate ArrowsShown(count: nat)
    ensures !ArrowsShown(count) <==> count == 0 || count == 1
  {
    count > 1
  }

  class ScrollContainer {
    const clientWidth: nat
    const firstCardWidth: Option<nat>
    var scrolls: seq<real>

    constructor(clientWidth: nat, firstCardWidth: Option<nat>)
      ensures this.clientWidth == clientWidth && this.firstCardWidth == firstCardWidth
      ensures scrolls == []
    {
      this.clientWidth := clientWidth;
      this.firstCardWidth := firstCardWidth;
      scrolls := [];
    }

    /** `scrollBy({ left: delta })`: one more delta in the log, which moves the content by `delta`. */
    method ScrollBy(delta: real)
      modifies this
      ensures scrolls == old(scrolls) + [delta]
      ensures Sum(scrolls) == Sum(old(scrolls)) + delta
    {
      scrolls := scrolls + [delta];
      assert scrolls[..|scrolls| - 1] == old(scrolls);
    }
  }
}
