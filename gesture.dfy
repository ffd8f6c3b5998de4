/** The card drag gesture on the discovery screen: the indicator thresholds
    while dragging, the swipe thresholds on release, and the per-card
    `startX`/`currentX`/`isDragging` variables of `renderCurrentProfile`.
    Coordinates are integer pixels (`clientX`). */
module Gesture {
  import opened Rows

  const IndicatorThreshold: int := 50
  const SwipeThreshold: int := 100

  /** Whether the LIKE and NOPE badges carry the `show` class. */
  datatype Indicators = Indicators(like: bool, nope: bool)

  /** What releasing the card does: a swipe, or the card snaps back. */
  datatype Release = Swiped(action: Action) | SnapBack

  /** `drag`: the badge shown for a horizontal displacement. */
  function IndicatorsFor(diff: int): (r: Indicators)
    ensures r.like <==> diff > IndicatorThreshold
    ensures r.nope <==> diff < -IndicatorThreshold
    ensures !(r.like && r.nope)
  {
    if diff > IndicatorThreshold then Indicators(true, false)
    else if diff < -IndicatorThreshold then Indicators(false, true)
    else Indicators(false, false)
  }

  /** `endDrag`: the decision for the displacement at release. A release
      that swipes happens at a displacement where the matching badge was
      showing, and never the opposite one. */
  function Classify(diff: int): (r: Release)
    ensures r == Swiped(Like) <==> diff > SwipeThreshold
    ensures r == Swiped(Dislike) <==> diff < -SwipeThreshold
    ensures r == SnapBack <==> -SwipeThreshold <= diff <= SwipeThreshold
    ensures r == Swiped(Like) ==> IndicatorsFor(diff) == Indicators(true, false)
    ensures r == Swiped(Dislike) ==> IndicatorsFor(diff) == Indicators(false, true)
  {
    if diff > SwipeThreshold then Swiped(Like)
    else if diff < -SwipeThreshold then Swiped(Dislike)
    else SnapBack
  }

  /** The gesture state of one rendered card. */
  class CardGesture {
    var isDragging: bool
    var startX: int
    var currentX: int

    /** A freshly rendered card: both coordinates start at 0. */
    constructor ()
      ensures !isDragging && startX == 0 && currentX == 0
    {
      isDragging, startX, currentX := false, 0, 0;
    }

    /** `startDrag` as written: it records the start but leaves `currentX`
        at whatever an earlier gesture (or the initial 0) put there. */
    method StartDrag(x: int)
      modifies this
      ensures isDragging && startX == x && currentX == old(currentX)
    {
      isDragging := true;
      startX := x;
    }

    /** `startDrag` as evidently intended: the gesture starts with no
        displacement. */
    method StartDragResetting(x: int)
      modifies this
      ensures isDragging && startX == x && currentX == x
    {
      isDragging := true;
      startX := x;
      currentX := x;
    }

    /** `drag`: ignored unless a drag is in progress; otherwise follows the
        pointer and reports the badges for the new displacement. */
    method Drag(x: int) returns (shown: Option<Indicators>)
      modifies this
      ensures isDragging == old(isDragging) && startX == old(startX)
      ensures !old(isDragging) ==> shown == None && currentX == old(currentX)
      ensures old(isDragging) ==> currentX == x && shown == Some(IndicatorsFor(x - startX))
    {
      if !isDragging {
        return None;
      }
      currentX := x;
      shown := Some(IndicatorsFor(currentX - startX));
    }

    /** `endDrag`: ignored unless a drag is in progress; otherwise ends it
        and classifies the last recorded displacement. */
    method EndDrag() returns (release: Option<Release>)
      modifies this
      ensures startX == old(startX) && currentX == old(currentX) && !isDragging
      ensures !old(isDragging) ==> release == None
      ensures old(isDragging) ==> release == Some(Classify(currentX - startX))
    {
      if !isDragging {
        return None;
      }
      isDragging := false;
      release := Some(Classify(currentX - startX));
    }
  }

  /** A tap (press and release with no move in between) on a freshly
      rendered card, as the source handles it: the displacement is measured
      from the stale `currentX` of 0, so a tap at a `clientX` above 100 px
      dislikes the profile. */
  method TapOnFreshCard(x: int) returns (r: Option<Release>)
    ensures x > SwipeThreshold ==> r == Some(Swiped(Dislike))
    ensures 0 <= x <= SwipeThreshold ==> r == Some(SnapBack)
  {
    var card := new CardGesture();
    card.StartDrag(x);
    r := card.EndDrag();
  }

  /** The same tap on a fresh card when the drag starts from no
      displacement: it snaps back wherever it lands. */
  method TapOnFreshCardResetting(x: int) returns (r: Option<Release>)
    ensures r == Some(SnapBack)
  {
    var card := new CardGesture();
    card.StartDragResetting(x);
    r := card.EndDrag();
  }

  /** The same tap when the drag starts from no displacement: whatever was
      dragged before on this card, a tap always snaps back. */
  method TapResetting(card: CardGesture, x: int) returns (r: Option<Release>)
    modifies card
    ensures r == Some(SnapBack)
  {
    card.StartDragResetting(x);
    r := card.EndDrag();
  }
}
