/** The drag-end decision of a swipe card (`handleDragEnd` in client/src/components/SwipeCard.tsx). */
module Gesture {

  /** Horizontal distance, in pixels, beyond which a release commits. */
  const SwipeThreshold: real := 80.0

  /** Horizontal speed, in pixels per second, beyond which a release commits. */
  const VelocityThreshold: real := 400.0

  /** What a drag end does: nothing (not the top card), commit right or left, or spring back. */
  datatype Outcome = Ignored | CommitRight | CommitLeft | SnapBack

  predicate PastRight(offsetX: real, velocityX: real)
  {
    offsetX > SwipeThreshold || velocityX > VelocityThreshold
  }

  predicate PastLeft(offsetX: real, velocityX: real)
  {
    offsetX < -SwipeThreshold || velocityX < -VelocityThreshold
  }

  /**
   * A card that is not on top ignores the release. Otherwise right is tried first, and only with a
   * right handler; then left, only with a left handler; anything else springs back with no callback.
   */
  function DragEnd(isTop: bool, offsetX: real, velocityX: real, hasRight: bool, hasLeft: bool): (o: Outcome)
    ensures o == Ignored <==> !isTop
    ensures o == CommitRight <==> isTop && hasRight && (offsetX > 80.0 || velocityX > 400.0)
    ensures o == CommitLeft <==>
              && isTop
              && !(hasRight && (offsetX > 80.0 || velocityX > 400.0))
              && hasLeft && (offsetX < -80.0 || velocityX < -400.0)
  {
    if !isTop then Ignored
    else if PastRight(offsetX, velocityX) && hasRight then CommitRight
    else if PastLeft(offsetX, velocityX) && hasLeft then CommitLeft
    else SnapBack
  }

  /** Releases inside both thresholds, including exactly at them, spring back on the top card. */
  lemma ThresholdsAreStrict(offsetX: real, velocityX: real)
    requires -80.0 <= offsetX <= 80.0 && -400.0 <= velocityX <= 400.0
    ensures DragEnd(true, offsetX, velocityX, true, true) == SnapBack
  {
  }

  /** When the release is past both thresholds in opposite directions, right wins. */
  lemma RightWinsTies(offsetX: real, velocityX: real)
    requires PastRight(offsetX, velocityX) && PastLeft(offsetX, velocityX)
    ensures DragEnd(true, offsetX, velocityX, true, true) == CommitRight
    ensures DragEnd(true, -offsetX, -velocityX, true, true) == CommitRight
  {
  }

  /** Away from ties, mirroring the gesture mirrors the decision. */
  lemma MirrorSwapsDirection(offsetX: real, velocityX: real)
    requires !(PastRight(offsetX, velocityX) && PastLeft(offsetX, velocityX))
    ensures DragEnd(true, offsetX, velocityX, true, true) == CommitRight <==>
            DragEnd(true, -offsetX, -velocityX, true, true) == CommitLeft
    ensures DragEnd(true, offsetX, velocityX, true, true) == SnapBack <==>
            DragEnd(true, -offsetX, -velocityX, true, true) == SnapBack
  {
  }

  /** Sample releases: far right, far left, short drag, fast flicks both ways. */
  lemma SampleReleases()
    ensures DragEnd(true, 150.0, 0.0, true, true) == CommitRight
    ensures DragEnd(true, -150.0, 0.0, true, true) == CommitLeft
    ensures DragEnd(true, 30.0, 0.0, true, true) == SnapBack
    ensures DragEnd(true, 0.0, 600.0, true, true) == CommitRight
    ensures DragEnd(true, 0.0, -600.0, true, true) == CommitLeft
    ensures DragEnd(true, 80.0, 400.0, true, true) == SnapBack
  {
  }

  /** A top card without a right handler can still commit left on a rightward-and-leftward release. */
  lemma MissingRightHandlerFallsThrough()
    ensures DragEnd(true, 100.0, -500.0, false, true) == CommitLeft
    ensures DragEnd(true, 100.0, 0.0, false, true) == SnapBack
  {
  }
}
