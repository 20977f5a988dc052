/**
 * components/common/ImageGallery.tsx: the slider's current index, which moves
 * with wrap-around and is locked while the 300 ms slide animation runs. The end
 * of the animation, a `setTimeout` in the source, is the explicit
 * `HandleAnimationEnd` event here.
 */
module ImageGallery {
  import opened Common
  import UseSwipe

  /** `current === 0 ? length - 1 : current - 1`. */
  function PrevIndex(current: int, length: int): (r: int)
    ensures 0 <= current < length ==> 0 <= r < length
    ensures 0 < current < length ==> r == current - 1
    ensures current == 0 ==> r == length - 1
  {
    if current == 0 then length - 1 else current - 1
  }

  /** `current === length - 1 ? 0 : current + 1`. */
  function NextIndex(current: int, length: int): (r: int)
    ensures 0 <= current < length ==> 0 <= r < length && r == (current + 1) % length
  {
    if current == length - 1 then 0 else current + 1
  }

  /** Previous undoes next and next undoes previous, for every index of a non-empty gallery. */
  lemma {:induction false} PrevNextInverse(current: int, length: int)
    requires 0 <= current < length
    ensures PrevIndex(NextIndex(current, length), length) == current
    ensures NextIndex(PrevIndex(current, length), length) == current
  {
    if current == length - 1 {
      assert NextIndex(current, length) == 0;
    }
  }

  /** A left swipe shows the next image and a right swipe the previous one. */
  const GalleryHandlers := UseSwipe.Handlers(true, true, false, false)

  /** The gallery registers only horizontal handlers, so a swipe it reacts to is never vertical. */
  lemma {:induction false} GallerySwipesAreHorizontal(dx: int, dy: int, threshold: int)
    ensures var r := UseSwipe.Classify(dx, dy, threshold, GalleryHandlers);
      r.None? || r == Some(UseSwipe.SwipeLeft) || r == Some(UseSwipe.SwipeRight)
  {
    var r := UseSwipe.Classify(dx, dy, threshold, GalleryHandlers);
    assert r != Some(UseSwipe.SwipeUp) && r != Some(UseSwipe.SwipeDown);
  }

  class Gallery {
    /** `images.length`. */
    const imageCount: nat
    var selectedIndex: int
    var isAnimating: bool

    /** With at least one image the index names one. */
    ghost predicate Valid()
      reads this
    {
      imageCount > 0 ==> 0 <= selectedIndex < imageCount
    }

    constructor(count: nat)
      ensures Valid()
      ensures imageCount == count && selectedIndex == 0 && !isAnimating
    {
      imageCount := count;
      selectedIndex := 0;
      isAnimating := false;
    }

    /** `handlePrevious`: ignored while animating; otherwise one step back, wrapping, and the animation starts. */
    method HandlePrevious()
      requires Valid()
      modifies this
      ensures Valid()
      ensures old(isAnimating) ==> selectedIndex == old(selectedIndex) && isAnimating
      ensures !old(isAnimating) ==> selectedIndex == PrevIndex(old(selectedIndex), imageCount) && isAnimating
    {
      if isAnimating {
        return;
      }
      isAnimating := true;
      selectedIndex := if selectedIndex == 0 then imageCount - 1 else selectedIndex - 1;
    }

    /** `handleNext`: ignored while animating; otherwise one step on, wrapping, and the animation starts. */
    method HandleNext()
      requires Valid()
      modifies this
      ensures Valid()
      ensures old(isAnimating) ==> selectedIndex == old(selectedIndex) && isAnimating
      ensures !old(isAnimating) ==> selectedIndex == NextIndex(old(selectedIndex), imageCount) && isAnimating
    {
      if isAnimating {
        return;
      }
      isAnimating := true;
      selectedIndex := if selectedIndex == imageCount - 1 then 0 else selectedIndex + 1;
    }

    /** The 300 ms timer: the lock is released, the index stays. */
    method HandleAnimationEnd()
      modifies this
      ensures !isAnimating && selectedIndex == old(selectedIndex)
    {
      isAnimating := false;
    }

    /** A thumbnail or indicator click: `!isAnimating && setSelectedIndex(index)`. */
    method HandleSelectIndex(index: int)
      requires Valid() && 0 <= index < imageCount
      modifies this
      ensures Valid()
      ensures selectedIndex == (if old(isAnimating) then old(selectedIndex) else index)
      ensures isAnimating == old(isAnimating)
    {
      if !isAnimating {
        selectedIndex := index;
      }
    }

    /** The swipe callbacks: `onSwipeLeft: handleNext`, `onSwipeRight: handlePrevious`. */
    method HandleSwipe(d: UseSwipe.Direction)
      requires Valid()
      requires d == UseSwipe.SwipeLeft || d == UseSwipe.SwipeRight
      modifies this
      ensures Valid()
      ensures old(isAnimating) ==> selectedIndex == old(selectedIndex)
      ensures !old(isAnimating) && d == UseSwipe.SwipeLeft ==> selectedIndex == NextIndex(old(selectedIndex), imageCount)
      ensures !old(isAnimating) && d == UseSwipe.SwipeRight ==> selectedIndex == PrevIndex(old(selectedIndex), imageCount)
    {
      if d == UseSwipe.SwipeLeft {
        HandleNext();
      } else {
        HandlePrevious();
      }
    }
  }

  /** Next, the end of its animation, then previous: back at the starting image. */
  method NextThenPrevious(g: Gallery)
    requires g.Valid() && g.imageCount > 0 && !g.isAnimating
    modifies g
    ensures g.Valid() && g.selectedIndex == old(g.selectedIndex) && g.isAnimating
  {
    g.HandleNext();
    g.HandleAnimationEnd();
    g.HandlePrevious();
    PrevNextInverse(old(g.selectedIndex), g.imageCount);
  }

  /** Without the end event the second press is swallowed: next then previous stays on the next image. */
  method NextThenPreviousTooSoon(g: Gallery)
    requires g.Valid() && g.imageCount > 0 && !g.isAnimating
    modifies g
    ensures g.selectedIndex == NextIndex(old(g.selectedIndex), g.imageCount)
  {
    g.HandleNext();
    g.HandlePrevious();
  }
}
