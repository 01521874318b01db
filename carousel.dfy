/**
 * The screenshot carousel: one index into the five screenshots, moved by the
 * next and previous buttons (wrapping around) and set by a thumbnail click.
 */
module Carousel {

  /** The number of screenshots. */
  const SlideCount: nat := 5

  /** nextSlide's update. */
  function Next(i: nat): (r: nat)
    ensures r < SlideCount
    ensures i < SlideCount ==> r == if i == SlideCount - 1 then 0 else i + 1
  {
    (i + 1) % SlideCount
  }

  /** prevSlide's update; the added length keeps the dividend non-negative. */
  function Prev(i: nat): (r: nat)
    ensures r < SlideCount
    ensures i < SlideCount ==> r == if i == 0 then SlideCount - 1 else i - 1
  {
    (i - 1 + SlideCount) % SlideCount
  }

  /** `n` presses of the next button. */
  function NextTimes(i: nat, n: nat): nat
  {
    if n == 0 then i else Next(NextTimes(i, n - 1))
  }

  /** Next and previous undo each other. */
  lemma NextPrevInverse(i: nat)
    requires i < SlideCount
    ensures Prev(Next(i)) == i && Next(Prev(i)) == i
  {
  }

  /** `n` presses of next advance the index by `n`, modulo the count. */
  lemma {:induction false} NextTimesAdds(i: nat, n: nat)
    requires i < SlideCount
    ensures NextTimes(i, n) == (i + n) % SlideCount
  {
    if n > 0 {
      NextTimesAdds(i, n - 1);
      var k := (i + n - 1) % SlideCount;
      assert i + n - 1 == (i + n - 1) / SlideCount * SlideCount + k;
    }
  }

  /** Five presses of next come back to the start. */
  lemma NextFiveTimes(i: nat)
    requires i < SlideCount
    ensures NextTimes(i, 5) == i
  {
    NextTimesAdds(i, 5);
  }

  /** The carousel component. */
  class Screenshots {
    var currentIndex: nat

    ghost predicate Valid()
      reads this
    {
      currentIndex < SlideCount
    }

    /** Whether thumbnail `k` carries the highlight ring. */
    predicate IsHighlighted(k: nat): (lit: bool)
      reads this
      ensures Valid() && lit ==> k < SlideCount
    {
      k == currentIndex
    }

    constructor ()
      ensures Valid() && currentIndex == 0
    {
      currentIndex := 0;
    }

    method NextSlide()
      requires Valid()
      modifies this
      ensures Valid() && currentIndex == Next(old(currentIndex))
    {
      currentIndex := (currentIndex + 1) % SlideCount;
    }

    method PrevSlide()
      requires Valid()
      modifies this
      ensures Valid() && currentIndex == Prev(old(currentIndex))
    {
      currentIndex := (currentIndex - 1 + SlideCount) % SlideCount;
    }

    /** A click on thumbnail `k` (one button per screenshot). */
    method SelectThumbnail(k: nat)
      requires k < SlideCount
      modifies this
      ensures Valid() && currentIndex == k
      ensures forall j: nat :: j < SlideCount ==> (IsHighlighted(j) <==> j == k)
    {
      currentIndex := k;
    }
  }
}
