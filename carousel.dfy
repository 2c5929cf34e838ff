/** The home-page carousel (public/js/index.js): the slides and the
    indicators, each a fixed list of elements whose `active` class is held
    here as an array of flags, and `currentIndex`. Timers are not modelled:
    each tick of the slide show is a call of `NextSlide`. */
module Carousel {
  import Counting

  /** The slide after `i`, wrapping to the first: `(i + 1) % n`. */
  function NextIndex(i: int, n: int): (j: int)
    requires 0 <= i < n
    ensures 0 <= j < n
    ensures j == if i == n - 1 then 0 else i + 1
  {
    (i + 1) % n
  }

  /** The slide before `i`, wrapping to the last: `(i - 1 + n) % n`. The
      operand is never negative, so JavaScript's `%` and Dafny's agree. */
  function PrevIndex(i: int, n: int): (j: int)
    requires 0 <= i < n
    ensures 0 <= j < n
    ensures j == if i == 0 then n - 1 else i - 1
  {
    (i - 1 + n) % n
  }

  /** Going back after going forward, and forward after going back, returns
      to the same slide. */
  lemma PrevNextInverse(i: int, n: int)
    requires 0 <= i < n
    ensures PrevIndex(NextIndex(i, n), n) == i
    ensures NextIndex(PrevIndex(i, n), n) == i
  {
  }

  /** The slide reached from `i` after `k` ticks of the slide show. */
  function Advance(i: int, n: int, k: nat): (j: int)
    requires 0 <= i < n
    ensures 0 <= j < n
  {
    if k == 0 then i else NextIndex(Advance(i, n, k - 1), n)
  }

  /** A non-zero multiple of `n` is at least `n` away from zero. */
  lemma MultipleBounds(k: int, n: int)
    requires n > 0
    ensures k >= 1 ==> k * n >= n
    ensures k <= -1 ==> k * n <= -n
  {
    if k >= 1 {
      assert k * n == (k - 1) * n + n;
    } else if k <= -1 {
      assert k * n == (k + 1) * n - n;
    }
  }

  /** The remainder is the only `r` in `[0, n)` with `a == q * n + r`. */
  lemma ModUnique(a: int, n: int, q: int, r: int)
    requires n > 0 && 0 <= r < n && a == q * n + r
    ensures a % n == r
  {
    var q', r' := a / n, a % n;
    assert (q - q') * n == r' - r;
    MultipleBounds(q - q', n);
  }

  lemma ModNext(a: int, n: int)
    requires a >= 0 && n > 0
    ensures NextIndex(a % n, n) == (a + 1) % n
  {
    var q, r := a / n, a % n;
    if r == n - 1 {
      ModUnique(a + 1, n, q + 1, 0);
    } else {
      ModUnique(a + 1, n, q, r + 1);
    }
  }

  /** `k` ticks move `k` slides on, modulo the number of slides. */
  lemma {:induction false} AdvanceIsModularSum(i: int, n: int, k: nat)
    requires 0 <= i < n
    ensures Advance(i, n, k) == (i + k) % n
  {
    if k > 0 {
      AdvanceIsModularSum(i, n, k - 1);
      ModNext(i + k - 1, n);
    }
  }

  /** A full round of `n` ticks comes back to the starting slide. */
  lemma FullRoundReturns(i: int, n: int)
    requires 0 <= i < n
    ensures Advance(i, n, n) == i
  {
    AdvanceIsModularSum(i, n, n);
    ModUnique(i + n, n, 1, i);
  }

  class Carousel {
    /** The `active` class of each `.slide`. */
    const slides: array<bool>
    /** The `active` class of each `.indicator`. */
    const indicators: array<bool>
    var currentIndex: int

    /** The page the script can work with: at least one slide, at least as
        many indicators as slides, and `currentIndex` names a slide. */
    ghost predicate Valid()
      reads this
    {
      && 0 < slides.Length <= indicators.Length
      && slides != indicators
      && 0 <= currentIndex < slides.Length
    }

    /** Exactly the current slide and the current indicator are active. */
    ghost predicate Showing()
      reads this, slides, indicators
    {
      && slides[..] == Counting.OneHot(slides.Length, currentIndex)
      && indicators[..] == Counting.OneHot(indicators.Length, currentIndex)
    }

    /** The page loads with these `active` classes; the script starts on
        slide 0. */
    constructor (initialSlides: seq<bool>, initialIndicators: seq<bool>)
      requires 0 < |initialSlides| <= |initialIndicators|
      ensures Valid() && Showing() && currentIndex == 0
      ensures slides.Length == |initialSlides| && indicators.Length == |initialIndicators|
      ensures fresh(slides) && fresh(indicators)
    {
      slides := new bool[|initialSlides|](i requires 0 <= i < |initialSlides| => initialSlides[i]);
      indicators := new bool[|initialIndicators|](i requires 0 <= i < |initialIndicators| => initialIndicators[i]);
      currentIndex := 0;
      new;
      var shown := ShowSlide(0);
    }

    /** `showSlide(index)`: clear every slide's `active` class, set the one of
        slide `index`, do the same for the indicators, and record `index`.
        An index with an indicator but no slide (only an indicator click can
        give one) makes `slides[index]` undefined: the script throws right
        after clearing the slides, so `shown` is false, no slide is active
        and nothing else changed. */
    method ShowSlide(index: int) returns (shown: bool)
      requires Valid() && 0 <= index < indicators.Length
      modifies this`currentIndex, slides, indicators
      ensures Valid()
      ensures shown <==> index < slides.Length
      ensures shown ==> Showing() && currentIndex == index
      ensures !shown ==> && slides[..] == Counting.OneHot(slides.Length, -1)
                         && indicators[..] == old(indicators[..])
                         && currentIndex == old(currentIndex)
    {
      for i := 0 to slides.Length
        invariant forall j :: 0 <= j < i ==> !slides[j]
        invariant indicators[..] == old(indicators[..])
        invariant currentIndex == old(currentIndex)
      {
        slides[i] := false;
      }
      if index >= slides.Length {
        assert slides[..] == Counting.OneHot(slides.Length, -1);
        shown := false;
        return;
      }
      slides[index] := true;
      for i := 0 to indicators.Length
        invariant forall j :: 0 <= j < i ==> !indicators[j]
        invariant forall j :: 0 <= j < slides.Length ==> slides[j] == (j == index)
        invariant currentIndex == old(currentIndex)
      {
        indicators[i] := false;
      }
      indicators[index] := true;
      currentIndex := index;
      shown := true;
    }

    /** `nextSlide`: the next button, and every tick of the slide show. */
    method NextSlide()
      requires Valid()
      modifies this`currentIndex, slides, indicators
      ensures Valid() && Showing()
      ensures currentIndex == NextIndex(old(currentIndex), slides.Length)
    {
      var shown := ShowSlide(NextIndex(currentIndex, slides.Length));
    }

    /** `prevSlide`: the prev button. */
    method PrevSlide()
      requires Valid()
      modifies this`currentIndex, slides, indicators
      ensures Valid() && Showing()
      ensures currentIndex == PrevIndex(old(currentIndex), slides.Length)
    {
      var shown := ShowSlide(PrevIndex(currentIndex, slides.Length));
    }

    /** A click on indicator `k`: `showSlide(k)`. */
    method ClickIndicator(k: int)
      requires Valid() && 0 <= k < indicators.Length
      modifies this`currentIndex, slides, indicators
      ensures Valid()
      ensures k < slides.Length ==> Showing() && currentIndex == k
      ensures k >= slides.Length ==> && currentIndex == old(currentIndex)
                                     && (forall j :: 0 <= j < slides.Length ==> !slides[j])
                                     && indicators[..] == old(indicators[..])
    {
      var shown := ShowSlide(k);
    }
  }
}
