/** The carousel component (app/components/carousel.tsx): the current slide
    `i`, moved by `go`, `next` and `prev` with JavaScript's truncating
    remainder, the keyboard handler, the pause flag set by hover and focus,
    and the guards for auto-advance and for the controls. */
module Carousel {
  import opened Keyboard
  import opened Selection

  /** A JavaScript number as the slide index can hold it: `go` on an empty
      carousel divides by zero and gives NaN, and NaN then stays. */
  datatype Num = NaN | Int(v: int)

  /** JavaScript's `a % m` on integers for m > 0: the remainder truncates
      toward zero and takes the sign of a, yet it is congruent to a modulo m. */
  function JsRem(a: int, m: int): (r: int)
    requires m > 0
    ensures a >= 0 ==> 0 <= r < m
    ensures a < 0 ==> -m < r <= 0
    ensures r % m == a % m
  {
    var r := if a >= 0 then a % m else -((-a) % m);
    JsRemCongruent(a, m);
    r
  }

  lemma MulBounds(k: int, m: int)
    requires m > 0
    ensures k >= 1 ==> k * m >= m
    ensures k <= -1 ==> k * m <= -m
  {
  }

  /** The Euclidean remainder is the unique r in [0, m) with x == q*m + r. */
  lemma ModUnique(x: int, q: int, r: int, m: int)
    requires m > 0 && 0 <= r < m && x == q * m + r
    ensures x % m == r
  {
    var k := q - x / m;
    assert k * m == x % m - r;
    MulBounds(k, m);
  }

  lemma ModShift(x: int, m: int)
    requires m > 0
    ensures (x + m) % m == x % m
  {
    ModUnique(x + m, x / m + 1, x % m, m);
  }

  lemma JsRemCongruent(a: int, m: int)
    requires m > 0
    ensures (if a >= 0 then a % m else -((-a) % m)) % m == a % m
  {
    if a >= 0 {
      ModUnique(a % m, 0, a % m, m);
    } else {
      var q, t := (-a) / m, (-a) % m;
      if t == 0 {
        ModUnique(a, -q, 0, m);
        ModUnique(-t, 0, 0, m);
      } else {
        ModUnique(a, -q - 1, m - t, m);
        ModUnique(-t, -1, m - t, m);
      }
    }
  }

  function Plus(x: Num, d: int): Num {
    match x
    case NaN => NaN
    case Int(v) => Int(v + d)
  }

  /** `((n % total) + total) % total` */
  function GoIndex(n: Num, total: nat): (r: Num)
    ensures r.NaN? <==> total == 0 || n.NaN?
    ensures r.Int? ==> 0 <= r.v < total && r.v == n.v % total
  {
    if total == 0 || n.NaN? then NaN
    else
      var r := JsRem(JsRem(n.v, total) + total, total);
      GoIsEuclidean(n.v, total);
      Int(r)
  }

  /** The double remainder is the Euclidean remainder. */
  lemma GoIsEuclidean(n: int, m: int)
    requires m > 0
    ensures JsRem(JsRem(n, m) + m, m) == n % m
  {
    var a := JsRem(n, m);
    var r := JsRem(a + m, m);
    ModShift(a, m);
    ModUnique(r, 0, r, m);
  }

  /** `go` leaves an index in range as it is. */
  lemma GoInRange(n: int, total: nat)
    requires 0 <= n < total
    ensures GoIndex(Int(n), total) == Int(n)
  {
  }

  /** `go(n + total)` lands on the same slide as `go(n)`. */
  lemma GoPeriodic(n: int, total: nat)
    requires total > 0
    ensures GoIndex(Int(n + total), total) == GoIndex(Int(n), total)
  {
    ModShift(n, total);
  }

  /** `next` from the last slide is the first and `prev` from the first is
      the last. */
  lemma NextPrevWrap(total: nat)
    requires total > 0
    ensures GoIndex(Plus(Int(total - 1), 1), total) == Int(0)
    ensures GoIndex(Plus(Int(0), -1), total) == Int(total - 1)
  {
    ModUnique(-1, -1, total - 1, total);
  }

  /** `aria-hidden={idx !== i}`: a NaN index hides every slide. */
  predicate SlideHidden(i: Num, idx: int) { !(i.Int? && i.v == idx) }

  /** `tabIndex={idx === i ? 0 : -1}` */
  function SlideTabIndex(i: Num, idx: int): int { if i.Int? && i.v == idx then 0 else -1 }

  /** `aria-current={idx === i ? "true" : undefined}` on the dots. */
  predicate DotCurrent(i: Num, idx: int) { i.Int? && i.v == idx }

  function ActiveSlides(i: Num, total: nat): (r: seq<bool>)
    ensures |r| == total
  {
    seq(total, idx requires 0 <= idx < total => !SlideHidden(i, idx))
  }

  /** With the index in range, exactly one slide is visible to assistive
      technology; it alone is in the tab order and its dot alone is current. */
  lemma ExactlyOneActive(i: Num, total: nat)
    requires i.Int? && 0 <= i.v < total
    ensures CountTrue(ActiveSlides(i, total)) == 1
    ensures forall idx :: 0 <= idx < total ==>
      (SlideTabIndex(i, idx) == 0 <==> !SlideHidden(i, idx)) && (DotCurrent(i, idx) <==> !SlideHidden(i, idx))
  {
    OneMarked(i.v, total);
    assert ActiveSlides(i, total) == Marks(i.v as real, total);
  }

  /** The auto-advance effect schedules a timer only when `autoMs > 0`,
      there are two slides or more and the carousel is not paused. */
  predicate AutoAdvance(autoMs: int, total: nat, paused: bool)
    ensures AutoAdvance(autoMs, total, paused) <==> autoMs > 0 && total >= 2 && !paused
    ensures AutoAdvance(autoMs, total, paused) ==> ControlsShown(total)
  {
    !(autoMs <= 0 || total < 2 || paused)
  }

  /** The previous/next buttons and the dots are rendered only for more than
      one slide, that is exactly when going to slide 1 lands elsewhere than
      going to slide 0. */
  predicate ControlsShown(total: nat)
    ensures ControlsShown(total) <==> GoIndex(Int(1), total) != GoIndex(Int(0), total)
  {
    total > 1
  }

  /** The carousel's state: `i`, the `paused` ref and whether the `timer`
      ref holds a pending timeout. */
  class CarouselComponent {
    const total: nat
    const autoMs: int
    var i: Num
    var paused: bool
    var timerPending: bool

    /** The slide index is in range whenever there is a slide. */
    ghost predicate Valid()
      reads this
    {
      total > 0 ==> i.Int? && 0 <= i.v < total
    }

    constructor (total: nat, autoMs: int)
      ensures this.total == total && this.autoMs == autoMs
      ensures i == Int(0) && !paused && !timerPending && Valid()
    {
      this.total, this.autoMs := total, autoMs;
      i, paused, timerPending := Int(0), false, false;
    }

    /** `go(n)` */
    method Go(n: Num)
      requires Valid() && (total > 0 ==> n.Int?)
      modifies this
      ensures i == GoIndex(n, total) && Valid()
      ensures paused == old(paused) && timerPending == old(timerPending)
    {
      i := GoIndex(n, total);
    }

    /** `next()` */
    method Next()
      requires Valid()
      modifies this
      ensures i == GoIndex(Plus(old(i), 1), total) && Valid()
      ensures paused == old(paused) && timerPending == old(timerPending)
    {
      Go(Plus(i, 1));
    }

    /** `prev()` */
    method Prev()
      requires Valid()
      modifies this
      ensures i == GoIndex(Plus(old(i), -1), total) && Valid()
      ensures paused == old(paused) && timerPending == old(timerPending)
    {
      Go(Plus(i, -1));
    }

    /** `onKey`: Home and End go to the first and last slide, the arrows to
        the previous and next; any other key changes nothing. */
    method OnKey(key: Key)
      requires Valid()
      modifies this
      ensures Valid() && paused == old(paused) && timerPending == old(timerPending)
      ensures key == Home ==> i == GoIndex(Int(0), total)
      ensures key == End ==> i == GoIndex(Int(total - 1), total)
      ensures key == ArrowLeft ==> i == GoIndex(Plus(old(i), -1), total)
      ensures key == ArrowRight ==> i == GoIndex(Plus(old(i), 1), total)
      ensures key == Other ==> i == old(i)
      ensures total > 0 && key == Home ==> i == Int(0)
      ensures total > 0 && key == End ==> i == Int(total - 1)
    {
      match key
      case ArrowLeft => Prev();
      case ArrowRight => Next();
      case Home => Go(Int(0));
      case End => Go(Int(total - 1));
      case Other =>
    }

    /** `onMouseEnter` and `onFocus` */
    method Pause()
      modifies this
      ensures paused && i == old(i) && timerPending == old(timerPending)
    {
      paused := true;
    }

    /** `onMouseLeave` and `onBlur` */
    method Resume()
      modifies this
      ensures !paused && i == old(i) && timerPending == old(timerPending)
    {
      paused := false;
    }

    /** The auto-advance effect after a change of `i`: the previous timer is
        cleared and a new one is set only under the guard. */
    method RunAutoAdvanceEffect()
      modifies this
      ensures timerPending == AutoAdvance(autoMs, total, paused)
      ensures i == old(i) && paused == old(paused)
    {
      timerPending := false;
      if autoMs <= 0 || total < 2 || paused {
        return;
      }
      timerPending := true;
    }

    /** The pending timeout fires and calls `next`. */
    method TimerFires()
      requires Valid() && timerPending
      modifies this
      ensures !timerPending && i == GoIndex(Plus(old(i), 1), total) && Valid()
      ensures paused == old(paused)
    {
      timerPending := false;
      Next();
    }
  }
}
