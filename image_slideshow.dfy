/**
 * components/image-slideshow.tsx: the slideshow's `currentIndex` state and
 * the handlers that move it. The interval timer is the method `Tick`, called
 * once per `slideInterval` while auto-advance is enabled.
 */
module ImageSlideshow {

  /** The index after `goToNext` or one auto-advance step. */
  function NextIndex(i: int, len: int): int {
    if i == len - 1 then 0 else i + 1
  }

  /** The index after `goToPrevious`. */
  function PrevIndex(i: int, len: int): int {
    if i == 0 then len - 1 else i - 1
  }

  /** Both steps stay on a slide, and each undoes the other. */
  lemma StepsStayInRange(i: int, len: int)
    requires 0 <= i < len
    ensures 0 <= NextIndex(i, len) < len && 0 <= PrevIndex(i, len) < len
    ensures PrevIndex(NextIndex(i, len), len) == i
    ensures NextIndex(PrevIndex(i, len), len) == i
  {
  }

  /** `k` forward steps from `i`. */
  function Advance(i: int, len: int, k: nat): int
    decreases k
  {
    if k == 0 then i else NextIndex(Advance(i, len, k - 1), len)
  }

  /**
   * After `k` auto-advance steps the slide shown is `i + k` reduced modulo
   * the number of slides: a slide index, and `i + k` less a whole number of
   * rounds.
   */
  lemma {:induction false} AdvanceWraps(i: int, len: int, k: nat) returns (rounds: nat)
    requires 0 <= i < len
    ensures 0 <= Advance(i, len, k) < len
    ensures i + k == rounds * len + Advance(i, len, k)
    decreases k
  {
    if k == 0 {
      rounds := 0;
    } else {
      var q := AdvanceWraps(i, len, k - 1);
      if Advance(i, len, k - 1) == len - 1 {
        rounds := q + 1;
        assert (q + 1) * len == q * len + len;
      } else {
        rounds := q;
      }
    }
  }

  /** Steps compose. */
  lemma {:induction false} AdvanceAdd(i: int, len: int, a: nat, b: nat)
    ensures Advance(i, len, a + b) == Advance(Advance(i, len, a), len, b)
    decreases b
  {
    if b > 0 {
      AdvanceAdd(i, len, a, b - 1);
      assert a + b - 1 == a + (b - 1);
    }
  }

  /** Before the end of the list, each step moves one slide ahead. */
  lemma {:induction false} AdvanceNoWrap(i: int, len: int, k: nat)
    requires 0 <= i && i + k < len
    ensures Advance(i, len, k) == i + k
    decreases k
  {
    if k > 0 {
      AdvanceNoWrap(i, len, k - 1);
    }
  }

  /** After as many steps as there are slides, the show is back where it started. */
  lemma FullCycle(i: int, len: int)
    requires 0 <= i < len
    ensures Advance(i, len, len) == i
  {
    AdvanceNoWrap(i, len, len - 1 - i);
    AdvanceAdd(i, len, len - 1 - i, 1);
    assert Advance(i, len, len - i) == 0;
    AdvanceAdd(i, len, len - i, i);
    AdvanceNoWrap(0, len, i);
    assert len - i + i == len;
  }

  datatype View = Placeholder | Slide(src: string, index: int, controls: bool)

  class Slideshow {
    const images: seq<string>
    const autoSlide: bool
    const slideInterval: int
    var currentIndex: int

    /** The index names a slide, or is 0 when there are none. */
    ghost predicate Valid()
      reads this
    {
      if |images| == 0 then currentIndex == 0 else 0 <= currentIndex < |images|
    }

    /** The component's props, with `autoSlide = true` and `slideInterval = 4000` by default. */
    constructor (images: seq<string>, autoSlide: bool, slideInterval: int)
      ensures Valid()
      ensures this.images == images && this.autoSlide == autoSlide && this.slideInterval == slideInterval
      ensures currentIndex == 0
    {
      this.images := images;
      this.autoSlide := autoSlide;
      this.slideInterval := slideInterval;
      currentIndex := 0;
    }

    /** Whether the effect installs the interval. */
    predicate AutoAdvances()
      reads this
    {
      autoSlide && |images| > 1
    }

    /** The arrows and dots are rendered, so the handlers can fire, only with two or more slides. */
    method GoToNext()
      requires Valid() && |images| > 1
      modifies this
      ensures Valid()
      ensures currentIndex == NextIndex(old(currentIndex), |images|)
    {
      currentIndex := if currentIndex == |images| - 1 then 0 else currentIndex + 1;
    }

    method GoToPrevious()
      requires Valid() && |images| > 1
      modifies this
      ensures Valid()
      ensures currentIndex == PrevIndex(old(currentIndex), |images|)
    {
      currentIndex := if currentIndex == 0 then |images| - 1 else currentIndex - 1;
    }

    /** A dot's click handler passes that dot's own index. */
    method GoToSlide(index: int)
      requires Valid() && |images| > 1 && 0 <= index < |images|
      modifies this
      ensures Valid()
      ensures currentIndex == index
    {
      currentIndex := index;
    }

    /** One firing of the interval; without the interval nothing happens. */
    method Tick()
      requires Valid()
      modifies this
      ensures Valid()
      ensures currentIndex == if AutoAdvances() then NextIndex(old(currentIndex), |images|) else old(currentIndex)
    {
      if autoSlide && |images| > 1 {
        currentIndex := if currentIndex == |images| - 1 then 0 else currentIndex + 1;
      }
    }

    /** What is rendered: the placeholder for no images, otherwise the current slide. */
    function Render(): (v: View)
      reads this
      requires Valid()
      ensures v == Placeholder <==> |images| == 0
      ensures v.Slide? ==> 0 <= v.index < |images| && v.src == images[v.index] && v.index == currentIndex
      ensures v.Slide? ==> (v.controls <==> |images| > 1)
    {
      if |images| == 0 then Placeholder else Slide(images[currentIndex], currentIndex, |images| > 1)
    }
  }
}
