/**
 * The scroll synchronisation of the split view: two scrollable panes and
 * one flag that swallows the scroll event caused by the handler's own
 * write to the other pane.
 */
module TextDiffScroll {

  /** Which pane raised the scroll event. */
  datatype Side = Left | Right

  /** A scrollable pane; only its vertical offset matters here. */
  class Pane {
    var scrollTop: int

    constructor (offset: int)
      ensures scrollTop == offset
    {
      scrollTop := offset;
    }
  }

  /** The two pane refs and the `isScrollingRef` flag of the text diff page. */
  class ScrollSync {
    var leftPane: Pane?
    var rightPane: Pane?
    var isScrolling: bool

    constructor (left: Pane?, right: Pane?)
      ensures leftPane == left && rightPane == right && !isScrolling
    {
      leftPane, rightPane, isScrolling := left, right, false;
    }

    /** The pane an event on `side` is copied to: the other one. */
    function Target(side: Side): (t: Pane?)
      reads this
      ensures t == (if side == Left then rightPane else leftPane)
    {
      match side
      case Left => rightPane
      case Right => leftPane
    }

    /** The panes that `HandleScroll(side, _)` may write. */
    function TargetFrame(side: Side): set<object>
      reads this
    {
      if Target(side) == null then {} else {Target(side)}
    }

    /**
     * `handleScroll(side)` applied to a scroll event of `source`. While the
     * flag is set the event is the echo of the handler's own write: the flag
     * is cleared and nothing is written. Otherwise the offset of `source` is
     * copied to the other pane and the flag is set; with no other pane,
     * nothing changes.
     */
    method HandleScroll(side: Side, source: Pane)
      modifies this`isScrolling, TargetFrame(side)
      ensures old(isScrolling) ==> !isScrolling && unchanged(TargetFrame(side))
      ensures !old(isScrolling) && Target(side) != null ==>
                isScrolling && Target(side).scrollTop == old(source.scrollTop)
      ensures !old(isScrolling) && Target(side) == null ==> !isScrolling
    {
      if isScrolling {
        isScrolling := false;
        return;
      }
      var target := if side == Left then rightPane else leftPane;
      if target != null {
        isScrolling := true;
        target.scrollTop := source.scrollTop;
      }
    }

    /**
     * A user scroll of the pane on `side` followed by the scroll event that
     * the copied offset raises on the other pane: both panes end at the
     * user's offset and the flag is clear again, ready for the next event.
     */
    method ScrollWithEcho(side: Side)
      requires leftPane != null && rightPane != null && leftPane != rightPane
      requires !isScrolling
      modifies this`isScrolling, leftPane, rightPane
      ensures !isScrolling
      ensures leftPane.scrollTop == rightPane.scrollTop
      ensures (if side == Left then leftPane else rightPane).scrollTop
              == old((if side == Left then leftPane else rightPane).scrollTop)
    {
      var source := if side == Left then leftPane else rightPane;
      var other := if side == Left then Right else Left;
      HandleScroll(side, source);
      HandleScroll(other, Target(side));
    }
  }
}
