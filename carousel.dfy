/** The cyclic index of the home page's slideshows: one step on, one step
    back, wrapping around at either end, or straight to a chosen position. */
module Carousel {

  /** `(prev + 1) % length`. */
  function NextIndex(i: int, n: int): (r: int)
    requires n > 0
    ensures 0 <= i < n ==> 0 <= r < n && r == if i == n - 1 then 0 else i + 1
  {
    (i + 1) % n
  }

  /** `(prev - 1 + length) % length`; with `prev` in range both operands are
      non-negative, so JavaScript's remainder agrees with Dafny's. */
  function PrevIndex(i: int, n: int): (r: int)
    requires n > 0
    ensures 0 <= i < n ==> 0 <= r < n && r == if i == 0 then n - 1 else i - 1
  {
    (i - 1 + n) % n
  }

  /** One step back undoes one step on, and the other way round. */
  lemma NextPrevInverse(i: int, n: int)
    requires 0 <= i < n
    ensures PrevIndex(NextIndex(i, n), n) == i
    ensures NextIndex(PrevIndex(i, n), n) == i
  {
  }

  /** `k` steps on. */
  function NextTimes(i: int, n: int, k: nat): int
    requires n > 0
  {
    if k == 0 then i else NextIndex(NextTimes(i, n, k - 1), n)
  }

  /** `k` steps on from a position in range is the position `k` further,
      counted around the circle, short of a full turn. */
  lemma {:induction false} NextTimesAdds(i: int, n: int, k: nat)
    requires 0 <= i < n && k <= n
    ensures NextTimes(i, n, k) == if i + k < n then i + k else i + k - n
  {
    if k > 0 {
      NextTimesAdds(i, n, k - 1);
    }
  }

  /** `n` steps on come back to the start. */
  lemma FullTurn(i: int, n: int)
    requires 0 <= i < n
    ensures NextTimes(i, n, n) == i
  {
    NextTimesAdds(i, n, n);
  }

  /** The `activeIndex` state of a slideshow of `count` slides. */
  class Slideshow {
    var activeIndex: int
    const count: nat

    predicate Valid()
      reads this
    {
      0 < count && 0 <= activeIndex < count
    }

    /** `useState(0)`. */
    constructor(count: nat)
      requires count > 0
      ensures Valid() && this.count == count && activeIndex == 0
    {
      this.count := count;
      activeIndex := 0;
    }

    /** The arrow to the right. */
    method Next()
      requires Valid()
      modifies this
      ensures Valid() && activeIndex == NextIndex(old(activeIndex), count)
    {
      activeIndex := (activeIndex + 1) % count;
    }

    /** The arrow to the left. */
    method Prev()
      requires Valid()
      modifies this
      ensures Valid() && activeIndex == PrevIndex(old(activeIndex), count)
    {
      activeIndex := (activeIndex - 1 + count) % count;
    }

    /** A dot or thumbnail: one per slide, so its index is in range. */
    method GoTo(index: int)
      requires Valid() && 0 <= index < count
      modifies this
      ensures Valid() && activeIndex == index
    {
      activeIndex := index;
    }
  }
}
