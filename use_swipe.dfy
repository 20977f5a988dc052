/**
 * hooks/useSwipe.ts: the touch handlers that turn a finger movement into at most
 * one swipe callback. The handlers a caller passed are given as presence flags;
 * a call to one is recorded in the tracker's `events`.
 */
module UseSwipe {
  import opened Common

  datatype Direction = SwipeLeft | SwipeRight | SwipeUp | SwipeDown

  /** Which of `onSwipeLeft`, `onSwipeRight`, `onSwipeUp`, `onSwipeDown` were given. */
  datatype Handlers = Handlers(left: bool, right: bool, up: bool, down: bool)

  function Abs(n: int): (r: nat)
    ensures r == n || r == -n
  {
    if n < 0 then -n else n
  }

  /** `threshold = 50` unless the caller gives one. */
  function ThresholdOf(option: Option<int>): (t: int)
    ensures option.None? ==> t == 50
    ensures option.Some? ==> t == option.value
  {
    if option.Some? then option.value else 50
  }

  /**
   * The callback one move fires, for the move `dx = start.x - x`, `dy = start.y - y`:
   * the dominant axis decides (a tie counts as vertical), the distance on it must
   * exceed the threshold, and the direction's handler must exist.
   */
  function Classify(dx: int, dy: int, threshold: int, h: Handlers): (r: Option<Direction>)
    ensures r == Some(SwipeLeft) <==> Abs(dx) > Abs(dy) && Abs(dx) > threshold && dx > 0 && h.left
    ensures r == Some(SwipeRight) <==> Abs(dx) > Abs(dy) && Abs(dx) > threshold && dx < 0 && h.right
    ensures r == Some(SwipeUp) <==> Abs(dx) <= Abs(dy) && Abs(dy) > threshold && dy > 0 && h.up
    ensures r == Some(SwipeDown) <==> Abs(dx) <= Abs(dy) && Abs(dy) > threshold && dy < 0 && h.down
  {
    if Abs(dx) > Abs(dy) then
      if Abs(dx) > threshold then
        if dx > 0 && h.left then Some(SwipeLeft)
        else if dx < 0 && h.right then Some(SwipeRight)
        else None
      else None
    else if Abs(dy) > threshold then
      if dy > 0 && h.up then Some(SwipeUp)
      else if dy < 0 && h.down then Some(SwipeDown)
      else None
    else None
  }

  /** A diagonal move never fires a horizontal handler. */
  lemma {:induction false} DiagonalIsVertical(d: int, threshold: int, h: Handlers)
    ensures Classify(d, d, threshold, h) != Some(SwipeLeft) && Classify(d, d, threshold, h) != Some(SwipeRight)
    ensures Classify(d, -d, threshold, h) != Some(SwipeLeft) && Classify(d, -d, threshold, h) != Some(SwipeRight)
  {
  }

  /** A move no longer than the threshold on both axes fires nothing. */
  lemma {:induction false} ShortMoveFiresNothing(dx: int, dy: int, threshold: int, h: Handlers)
    requires Abs(dx) <= threshold && Abs(dy) <= threshold
    ensures Classify(dx, dy, threshold, h).None?
  {
  }

  class SwipeTracker {
    const handlers: Handlers
    const threshold: int
    var touchStart: Option<(int, int)>
    /** The swipe callbacks made so far. */
    var events: seq<Direction>

    /** `useSwipe(handlers, { threshold })`: no touch in progress. */
    constructor(h: Handlers, thresholdOption: Option<int>)
      ensures handlers == h && threshold == ThresholdOf(thresholdOption)
      ensures touchStart.None? && events == []
    {
      handlers := h;
      threshold := if thresholdOption.Some? then thresholdOption.value else 50;
      touchStart := None;
      events := [];
    }

    /** `handleTouchStart`: the first touch point is stored. */
    method HandleTouchStart(x: int, y: int)
      modifies this
      ensures touchStart == Some((x, y)) && events == old(events)
    {
      touchStart := Some((x, y));
    }

    /**
     * `handleTouchMove`: without a stored start nothing happens; otherwise the
     * classified callback, if any, is made and only then is the start forgotten.
     */
    method HandleTouchMove(x: int, y: int)
      modifies this
      ensures old(touchStart).None? ==> touchStart == old(touchStart) && events == old(events)
      ensures old(touchStart).Some? ==>
        var fired := Classify(old(touchStart).value.0 - x, old(touchStart).value.1 - y, threshold, handlers);
        (fired.None? ==> touchStart == old(touchStart) && events == old(events)) &&
        (fired.Some? ==> touchStart.None? && events == old(events) + [fired.value])
    {
      if touchStart.None? {
        return;
      }
      var dx := touchStart.value.0 - x;
      var dy := touchStart.value.1 - y;
      if Abs(dx) > Abs(dy) {
        if Abs(dx) > threshold {
          if dx > 0 && handlers.left {
            events := events + [SwipeLeft];
            touchStart := None;
          } else if dx < 0 && handlers.right {
            events := events + [SwipeRight];
            touchStart := None;
          }
        }
      } else {
        if Abs(dy) > threshold {
          if dy > 0 && handlers.up {
            events := events + [SwipeUp];
            touchStart := None;
          } else if dy < 0 && handlers.down {
            events := events + [SwipeDown];
            touchStart := None;
          }
        }
      }
    }

    /** `handleTouchEnd`: the start is always forgotten. */
    method HandleTouchEnd()
      modifies this
      ensures touchStart.None? && events == old(events)
    {
      touchStart := None;
    }
  }
}
