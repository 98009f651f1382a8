/**
 * The background slideshow (script.js): a global index `currentSlide` that
 * `nextSlide` advances modulo the number of slides, and `showSlide`, which clears
 * the `active` class on every slide and then sets it on one. Each slide is
 * represented by its `active` flag; the 5000 ms interval becomes calls of `NextSlide`.
 */
module Slideshow {

  /** The index after one advance. */
  function Advance(i: nat, n: nat): (r: nat)
    requires n > 0
    ensures r < n
    ensures i < n - 1 ==> r == i + 1
    ensures i == n - 1 ==> r == 0
  {
    (i + 1) % n
  }

  /** The index after `k` advances from the first slide. */
  function AdvanceTimes(k: nat, n: nat): (r: nat)
    requires n > 0
    ensures r < n
  {
    if k == 0 then 0 else Advance(AdvanceTimes(k - 1, n), n)
  }

  /** A positive multiple of `n` is at least `n`. */
  lemma {:induction false} MultipleAtLeast(d: nat, n: nat)
    requires d >= 1
    ensures d * n >= n
  {
    if d > 1 {
      MultipleAtLeast(d - 1, n);
      assert d * n == (d - 1) * n + n;
    }
  }

  /** Multiplication distributes over the sum of two factors. */
  lemma MulAddRight(a: int, b: int, n: int)
    ensures (a + b) * n == a * n + b * n
  {
  }

  /** Euclidean division has one quotient and one remainder. */
  lemma ModUnique(x: int, n: int, q: int, r: int)
    requires n > 0 && 0 <= r < n && x == q * n + r
    ensures x % n == r
  {
    var q', r' := x / n, x % n;
    assert x == q' * n + r';
    if q > q' {
      MulAddRight(q', q - q', n);
      MultipleAtLeast(q - q', n);
    } else if q < q' {
      MulAddRight(q, q' - q, n);
      MultipleAtLeast(q' - q, n);
    }
  }

  /** One more step wraps the remainder at `n`. */
  lemma ModNext(x: nat, n: nat)
    requires n > 0
    ensures (x + 1) % n == if x % n < n - 1 then x % n + 1 else 0
  {
    var q, r := x / n, x % n;
    assert x == q * n + r;
    if r < n - 1 {
      ModUnique(x + 1, n, q, r + 1);
    } else {
      MulAddRight(q, 1, n);
      ModUnique(x + 1, n, q + 1, 0);
    }
  }

  /** After `k` advances from slide 0 the index is `k mod n`. */
  lemma {:induction false} AdvanceTimesIsMod(k: nat, n: nat)
    requires n > 0
    ensures AdvanceTimes(k, n) == k % n
  {
    if k > 0 {
      AdvanceTimesIsMod(k - 1, n);
      var r := (k - 1) % n;
      assert AdvanceTimes(k, n) == Advance(r, n);
      assert Advance(r, n) == if r < n - 1 then r + 1 else 0;
      ModNext(k - 1, n);
    }
  }

  /** The flags when exactly slide `i` of `n` is active. */
  function OneHot(n: nat, i: nat): (flags: seq<bool>)
    ensures |flags| == n
  {
    seq(n, j => j == i)
  }

  function CountActive(flags: seq<bool>): nat {
    if flags == [] then 0 else (if flags[0] then 1 else 0) + CountActive(flags[1..])
  }

  /** `OneHot` makes slide `i` the one and only active slide. */
  lemma {:induction false} OneHotExactlyOne(n: nat, i: nat)
    requires i < n
    ensures CountActive(OneHot(n, i)) == 1
  {
    var flags := OneHot(n, i);
    if i == 0 {
      assert flags[1..] == seq(n - 1, j => false);
      NoneActive(n - 1);
    } else {
      assert flags[1..] == OneHot(n - 1, i - 1);
      OneHotExactlyOne(n - 1, i - 1);
    }
  }

  lemma {:induction false} NoneActive(n: nat)
    ensures CountActive(seq(n, j => false)) == 0
  {
    if n > 0 {
      assert seq(n, j => false)[1..] == seq(n - 1, j => false);
      NoneActive(n - 1);
    }
  }

  /**
   * The slides captured at load, with the index and whether the interval was scheduled.
   * The `active` flags start as the markup gives them: the script activates no slide at load.
   */
  class Rotator {
    const slides: array<bool>
    var current: nat
    const running: bool

    ghost predicate Valid()
      reads this
    {
      running == (slides.Length > 0) && (running ==> current < slides.Length)
    }

    /** Load time: the index starts at 0; the interval is scheduled only if there are slides. */
    constructor (slides: array<bool>)
      ensures Valid()
      ensures this.slides == slides && current == 0
      ensures running <==> slides.Length > 0
    {
      this.slides := slides;
      current := 0;
      running := slides.Length > 0;
    }

    /** `showSlide(index)`: afterwards exactly slide `index` is active. */
    method ShowSlide(index: nat)
      requires index < slides.Length
      modifies slides
      ensures slides[..] == OneHot(slides.Length, index)
    {
      var k := 0;
      while k < slides.Length
        invariant 0 <= k <= slides.Length
        invariant forall j :: 0 <= j < k ==> !slides[j]
      {
        slides[k] := false;
        k := k + 1;
      }
      slides[index] := true;
    }

    /** `nextSlide()`, run by the interval, which exists only when there are slides. */
    method NextSlide()
      requires Valid() && running
      modifies this, slides
      ensures Valid()
      ensures current == Advance(old(current), slides.Length)
      ensures slides[..] == OneHot(slides.Length, current)
    {
      current := Advance(current, slides.Length);
      ShowSlide(current);
    }
  }
}
