/** Binary floating point with 53-bit significands and round to nearest (section 4.3.1 of IEEE
    754-2019), as far as a page count needs it: the quotients here neither overflow nor underflow. */
module Doubles {

  const TWO53 := 0x20_0000_0000_0000
  const TWO52 := 0x10_0000_0000_0000

  ghost function Pow2(e: int): (r: real)
    ensures r > 0.0
    decreases if e < 0 then -e else e
  {
    if e == 0 then 1.0 else if e > 0 then 2.0 * Pow2(e - 1) else Pow2(e + 1) / 2.0
  }

  lemma Pow2Halves(e: int)
    ensures Pow2(e) == 2.0 * Pow2(e - 1)
  {
  }

  ghost function Scaled(m: int, e: int): real {
    m as real * Pow2(e)
  }

  ghost predicate Double(x: real) {
    exists m: int, e: int :: -TWO53 <= m <= TWO53 && x == Scaled(m, e)
  }

  ghost function Distance(x: real, y: real): real {
    if x <= y then y - x else x - y
  }

  /** `d` is a double nearest to `x`; how ties are broken does not matter. */
  ghost predicate Nearest(x: real, d: real) {
    Double(d) && forall d' :: Double(d') ==> Distance(x, d) <= Distance(x, d')
  }

  ghost predicate RoundsToNearest(round: real -> real) {
    forall x :: Nearest(x, round(x))
  }

  function Ceil(x: real): int {
    -((-x).Floor)
  }

  lemma IntegerIsDouble(n: int)
    requires -TWO53 <= n <= TWO53
    ensures Double(n as real)
  {
    assert n as real == Scaled(n, 0);
  }

  /** Rounding leaves a double alone. */
  lemma RoundExact(x: real, d: real)
    requires Double(x) && Nearest(x, d)
    ensures d == x
  {
    assert Distance(x, x) == 0.0;
  }

  /** `y` is a double above `x` by at most the 2^52-th part of `x`. */
  ghost predicate JustAbove(x: real, y: real) {
    Double(y) && x < y && (y - x) * TWO52 as real <= x
  }

  lemma {:induction false} NextUp(m: int, e: int) returns (y: real)
    requires 1 <= m < TWO53
    ensures JustAbove(Scaled(m, e), y)
    decreases TWO53 - m
  {
    if m >= TWO52 {
      y := Scaled(m + 1, e);
      OneUlp(m, e);
    } else {
      DoubledSignificand(m, e);
      y := NextUp(2 * m, e - 1);
    }
  }

  lemma DoubledSignificand(m: int, e: int)
    ensures Scaled(m, e) == Scaled(2 * m, e - 1)
  {
    Pow2Halves(e);
    SameValue(m, Pow2(e), Pow2(e - 1));
  }

  lemma OneUlp(m: int, e: int)
    requires TWO52 <= m < TWO53
    ensures JustAbove(Scaled(m, e), Scaled(m + 1, e))
  {
    var mr, ulp := m as real, Pow2(e);
    assert (m + 1) as real == mr + 1.0;
    AboveBy(mr, ulp, TWO52 as real, Scaled(m, e), Scaled(m + 1, e));
  }

  lemma AboveBy(m: real, ulp: real, t: real, x: real, y: real)
    requires 0.0 <= t <= m && ulp > 0.0 && x == m * ulp && y == (m + 1.0) * ulp
    ensures x < y && (y - x) * t <= x
  {
    OneMore(m, ulp);
    MulMonotone(t, m, ulp);
  }

  lemma OneMore(a: real, ulp: real)
    ensures (a + 1.0) * ulp == a * ulp + ulp
  {
  }

  lemma MulMonotone(a: real, b: real, c: real)
    requires a <= b && 0.0 <= c
    ensures a * c <= b * c && c * a <= c * b
  {
  }

  lemma MulStrict(a: real, b: real, c: real)
    requires a < b && 0.0 < c
    ensures a * c < b * c
  {
  }

  lemma Cancel(a: real, b: real, c: real)
    requires 0.0 < c
    ensures a * c <= b * c ==> a <= b
    ensures a * c < b * c ==> a < b
  {
    if a > b {
      MulStrict(b, a, c);
    }
  }

  lemma SameValue(m: int, whole: real, half: real)
    requires whole == 2.0 * half
    ensures m as real * whole == (2 * m) as real * half
  {
  }

  // ------------------------------------------------------------------ the ceiling of a rounded quotient

  function CeilDiv(n: nat, p: nat): nat
    requires p > 0
  {
    (n + p - 1) / p
  }

  /** The integer ceiling: the one count of pages of p that holds n items and no page too many. */
  lemma CeilDivIs(n: nat, p: nat)
    requires p > 0
    ensures var c := CeilDiv(n, p); n <= c * p && (n > 0 ==> c >= 1 && (c - 1) * p < n) && (n == 0 ==> c == 0)
    ensures n <= TWO53 ==> CeilDiv(n, p) <= TWO53
  {
    var c := CeilDiv(n, p);
    var r := (n + p - 1) % p;
    assert n + p - 1 == p * c + r && 0 <= r < p;
    assert (c - 1) * p == p * c - p;
    if n > 0 {
      PositiveFactor(p, c);
      MulMono(1, p, c - 1);
    } else {
      assert (p - 1) / p == 0;
    }
  }

  lemma PositiveFactor(p: int, c: int)
    requires p > 0 && p * c > 0
    ensures c >= 1
  {
  }

  lemma MulMono(a: int, b: int, c: int)
    requires a <= b && 0 <= c
    ensures c * a <= c * b
  {
  }

  /** No quotient of two counts up to 2^53 rounds down to an integer below it. */
  lemma RoundedAbove(n: nat, p: nat, below: nat, q: real, d: real)
    requires n <= TWO53 && 1 <= p <= TWO53 && q * p as real == n as real
    requires below * p < n && below < TWO53
    requires Nearest(q, d)
    ensures d > below as real
  {
    QuotientGap(n, p, below, q);
    IntegerIsDouble(below);
    var y: real;
    if below == 0 {
      y := Scaled(1, -53);
      TinyDouble();
      assert y == Pow2(-53);
      TinyBelowQuotient(n, p, q, y);
    } else {
      y := NextUp(below, 0);
      assert Scaled(below, 0) == below as real;
      GapBelowQuotient(n, p, below, q, y);
    }
    assert Distance(q, d) <= Distance(q, y);
  }

  /** The quotient stays away from the integer below it by at least 1/p. */
  lemma QuotientGap(n: nat, p: nat, below: nat, q: real)
    requires p >= 1 && q * p as real == n as real && below * p < n
    ensures (q - below as real) * p as real >= 1.0 && q > below as real
  {
    assert (q - below as real) * p as real == n as real - (below * p) as real;
    Cancel(0.0, q - below as real, p as real);
  }

  lemma TinyDouble()
    ensures Double(Scaled(1, -53)) && Scaled(1, -53) * TWO53 as real == 1.0
  {
    Pow2Neg53();
  }

  lemma Pow2Neg53()
    ensures Pow2(-53) * TWO53 as real == 1.0
  {
    Pow2Drop(0, 53);
    TwoTo53();
  }

  function TwoTo(k: nat): nat {
    if k == 0 then 1 else 2 * TwoTo(k - 1)
  }

  lemma TwoTo53()
    ensures TwoTo(53) == TWO53
  {
    assert TwoTo(13) == 8192;
    TwoToAdds(13, 13);
    TwoToAdds(13, 14);
    TwoToAdds(26, 27);
  }

  lemma {:induction false} TwoToAdds(a: nat, b: nat)
    ensures TwoTo(a + b) == TwoTo(a) * TwoTo(b)
  {
    if a > 0 {
      TwoToAdds(a - 1, b);
      DoubleFactor(TwoTo(a - 1), TwoTo(b));
    }
  }

  lemma DoubleFactor(a: nat, b: nat)
    ensures 2 * (a * b) == (2 * a) * b
  {
  }

  lemma {:induction false} Pow2Drop(e: int, k: nat)
    ensures Pow2(e - k) * TwoTo(k) as real == Pow2(e)
    decreases k
  {
    if k > 0 {
      Pow2Drop(e, k - 1);
      Pow2Halves(e - (k - 1));
      assert e - (k - 1) - 1 == e - k;
      SameProduct(Pow2(e - k), Pow2(e - (k - 1)), TwoTo(k - 1));
    }
  }

  lemma SameProduct(half: real, whole: real, t: int)
    requires whole == 2.0 * half
    ensures half * (2 * t) as real == whole * t as real
  {
  }

  lemma TinyBelowQuotient(n: nat, p: nat, q: real, y: real)
    requires 1 <= n && 1 <= p <= TWO53 && q * p as real == n as real && y > 0.0 && y * TWO53 as real == 1.0
    ensures y <= q
  {
    var pr, t := p as real, TWO53 as real;
    MulMonotone(pr, t, y);
    assert y * pr <= 1.0 <= q * pr;
    Cancel(y, q, pr);
  }

  /** The double just above `below` is nearer to the quotient than `below` is. */
  lemma GapBelowQuotient(n: nat, p: nat, below: nat, q: real, y: real)
    requires n <= TWO53 && p >= 1 && below * p < n
    requires (q - below as real) * p as real >= 1.0 && q > below as real
    requires below as real < y && (y - below as real) * TWO52 as real <= below as real
    ensures Distance(q, y) < q - below as real
  {
    assert below as real * p as real == (below * p) as real;
    GapInReals(y - below as real, q - below as real, below as real, p as real, TWO52 as real);
  }

  lemma GapInReals(s: real, f: real, b: real, pr: real, t: real)
    requires s * t <= b && b * pr < 2.0 * t && f * pr >= 1.0 && pr > 0.0 && t > 0.0
    ensures s < 2.0 * f
  {
    MulMonotone(s * t, b, pr);
    MulMonotone(1.0, f * pr, 2.0 * t);
    Reorder(s, f, pr, t);
    Cancel(s, 2.0 * f, pr * t);
  }

  lemma Reorder(s: real, f: real, pr: real, t: real)
    ensures (s * t) * pr == s * (pr * t)
    ensures (f * pr) * (2.0 * t) == (2.0 * f) * (pr * t)
    ensures pr > 0.0 && t > 0.0 ==> pr * t > 0.0
  {
  }

  /** The page count of the code: with any rounding to nearest, converting, dividing, rounding and
      taking the ceiling give the integer ceiling for all counts up to 2^53. */
  lemma FloatCeilingIsExact(items: nat, perPage: nat, round: real -> real)
    requires RoundsToNearest(round) && items <= TWO53 && 1 <= perPage <= TWO53
    ensures round(perPage as real) == perPage as real != 0.0
    ensures Ceil(round(round(items as real) / round(perPage as real))) == CeilDiv(items, perPage)
  {
    RoundInteger(items, round);
    RoundInteger(perPage, round);
    QuotientRounded(items, perPage, items as real / perPage as real, round);
  }

  lemma QuotientRounded(items: nat, perPage: nat, q: real, round: real -> real)
    requires RoundsToNearest(round) && items <= TWO53 && 1 <= perPage <= TWO53
    requires q == items as real / perPage as real
    ensures Ceil(round(q)) == CeilDiv(items, perPage)
  {
    DivMul(items as real, perPage as real);
    assert Nearest(q, round(q));
    RoundedCeiling(items, perPage, q, round(q));
  }

  lemma RoundInteger(n: int, round: real -> real)
    requires RoundsToNearest(round) && -TWO53 <= n <= TWO53
    ensures round(n as real) == n as real
  {
    IntegerIsDouble(n);
    RoundExact(n as real, round(n as real));
  }

  lemma DivMul(n: real, p: real)
    requires p != 0.0
    ensures n / p * p == n
  {
  }

  lemma RoundedCeiling(items: nat, perPage: nat, q: real, d: real)
    requires items <= TWO53 && 1 <= perPage <= TWO53 && q * perPage as real == items as real
    requires Nearest(q, d)
    ensures Ceil(d) == CeilDiv(items, perPage)
  {
    var c := CeilDiv(items, perPage);
    CeilDivIs(items, perPage);
    IntegerIsDouble(c);
    if items == 0 {
      assert q == 0.0;
      RoundExact(q, d);
    } else {
      RoundedAbove(items, perPage, c - 1, q, d);
      QuotientBelow(items, perPage, c, q);
      assert Distance(q, d) <= Distance(q, c as real);
      CeilBetween(d, c);
    }
  }

  lemma QuotientBelow(n: nat, p: nat, c: nat, q: real)
    requires p >= 1 && q * p as real == n as real && n <= c * p
    ensures q <= c as real
  {
    assert c as real * p as real == (c * p) as real;
    Cancel(q, c as real, p as real);
  }

  lemma CeilBetween(d: real, c: int)
    requires (c - 1) as real < d <= c as real
    ensures Ceil(d) == c
  {
  }

  // ------------------------------------------------------------------ beyond 2^53

  /** Doubles from 2^53 upwards are even integers, but for 2^53 itself being one as well. */
  lemma BigDoublesAreEven(x: real)
    requires Double(x) && x >= TWO53 as real
    ensures exists k: int :: x == (2 * k) as real
  {
    var m: int, e: int :| -TWO53 <= m <= TWO53 && x == Scaled(m, e);
    if e <= 0 {
      ScaledDown(m, e);
      assert x == (2 * (TWO53 / 2)) as real;
    } else {
      ScaledUp(m, e);
    }
  }

  lemma ScaledDown(m: int, e: int)
    requires m <= TWO53 && e <= 0
    ensures Scaled(m, e) <= TWO53 as real
  {
    SmallPow(e);
    AtMost(m as real, Pow2(e), TWO53 as real);
  }

  lemma ScaledUp(m: int, e: int)
    requires e > 0
    ensures Scaled(m, e) == (2 * (m * TwoTo(e - 1))) as real
  {
    PowIsInt(e);
    EvenProduct(m, TwoTo(e - 1));
  }

  lemma AtMost(m: real, scale: real, bound: real)
    requires m <= bound && 0.0 < scale <= 1.0 && bound >= 0.0
    ensures m * scale <= bound
  {
    if m >= 0.0 {
      MulMonotone(scale, 1.0, m);
    } else {
      MulMonotone(m, 0.0, scale);
    }
  }

  lemma EvenProduct(m: int, n: int)
    ensures m as real * (2 * n) as real == (2 * (m * n)) as real
  {
    assert m * (2 * n) == 2 * (m * n);
  }

  lemma {:induction false} SmallPow(e: int)
    requires e <= 0
    ensures Pow2(e) <= 1.0
    decreases -e
  {
    if e < 0 {
      SmallPow(e + 1);
    }
  }

  lemma {:induction false} PowIsInt(e: int)
    requires e > 0
    ensures Pow2(e) == (2 * TwoTo(e - 1)) as real
    decreases e
  {
    if e > 1 {
      PowIsInt(e - 1);
    }
  }

  /** The page count of the code is the integer ceiling. */
  ghost predicate CountIsExact(round: real -> real, items: nat, perPage: nat)
    requires perPage > 0
  {
    round(perPage as real) != 0.0
    && Ceil(round(round(items as real) / round(perPage as real))) == CeilDiv(items, perPage)
  }

  /** At one item per page the count is exact if and only if the item count is a double. */
  lemma OnePerPage(round: real -> real, items: nat)
    requires RoundsToNearest(round)
    ensures round(1.0) == 1.0 && (CountIsExact(round, items, 1) <==> Double(items as real))
  {
    var x := items as real;
    var d := round(x);
    IntegerIsDouble(1);
    RoundExact(1.0, round(1.0));
    assert d / 1.0 == d;
    RoundExact(d, round(d));
    if Double(x) {
      RoundExact(x, d);
    } else {
      if items <= TWO53 {
        IntegerIsDouble(items);
      }
      IntegerIsDouble(TWO53);
      assert Distance(x, d) <= Distance(x, TWO53 as real);
      BigDoublesAreEven(d);
      var k :| d == (2 * k) as real;
      assert Ceil(d) == 2 * k;
    }
  }

  /** 2^53 + 1 items at one per page are miscounted under every rounding to nearest. */
  lemma FloatCeilingFailsBeyond(round: real -> real)
    requires RoundsToNearest(round)
    ensures round(1.0) == 1.0 && !CountIsExact(round, TWO53 + 1, 1)
  {
    OnePerPage(round, TWO53 + 1);
    OddIsNoDouble();
  }

  /** The bound is sharp: the count is exact for all counts up to n if and only if n is at most 2^53. */
  lemma ExactUpTo(round: real -> real, n: nat)
    requires RoundsToNearest(round)
    ensures (forall items: nat, perPage: nat | items <= n && 1 <= perPage <= n :: CountIsExact(round, items, perPage))
            <==> n <= TWO53
  {
    forall items: nat, perPage: nat | n <= TWO53 && items <= n && 1 <= perPage <= n
      ensures CountIsExact(round, items, perPage)
    {
      FloatCeilingIsExact(items, perPage, round);
    }
    if n > TWO53 {
      FloatCeilingFailsBeyond(round);
    }
  }

  lemma OddIsNoDouble()
    ensures !Double((TWO53 + 1) as real)
  {
    if Double((TWO53 + 1) as real) {
      BigDoublesAreEven((TWO53 + 1) as real);
      assert false;
    }
  }
}

/** The pager (pkg/page/pager.go). */
module Paging {
  import opened Doubles

  /** The query parameter "page": missing, not a number, or the number it spells. */
  datatype Query = Missing | NotANumber | Number(value: int)

  class Pager {
    var items: int
    var page: int
    var itemsPerPage: int
    var pages: int

    constructor (query: Query, itemsPerPage: int)
      ensures this.itemsPerPage == itemsPerPage && items == 0 && pages == 0
      ensures page == (if query.Number? && query.value > 0 then query.value else 1) >= 1
    {
      this.itemsPerPage, page, items, pages := itemsPerPage, 1, 0, 0;
      if query != Missing {
        if query.Number? {
          if query.value > 0 {
            page := query.value;
          }
        }
      }
    }

    /** Computed in floating point, the page count is the integer ceiling; the page is clamped to it. */
    method SetItems(items: int, round: real -> real)
      requires RoundsToNearest(round)
      requires 0 <= items <= TWO53 && 1 <= itemsPerPage <= TWO53
      modifies this
      ensures this.items == items && itemsPerPage == old(itemsPerPage)
      ensures pages == CeilDiv(items, itemsPerPage)
      ensures page == Clamped(old(page), items, itemsPerPage)
      ensures page == if old(page) > pages then pages else old(page)
    {
      this.items := items;
      FloatCeilingIsExact(items, itemsPerPage, round);
      pages := Ceil(round(round(items as real) / round(itemsPerPage as real)));
      if page > pages {
        page := pages;
      }
    }

    predicate IsBeginning()
      reads this
    {
      page == 1
    }

    predicate IsEnd()
      reads this
    {
      page >= pages
    }

    method GetOffset() returns (offset: int)
      ensures offset == Offset(page, itemsPerPage)
    {
      var p := page;
      if p == 0 {
        p := 1;
      }
      offset := (p - 1) * itemsPerPage;
    }
  }

  function Clamped(page: int, items: nat, perPage: nat): int
    requires perPage >= 1
  {
    if page > CeilDiv(items, perPage) then CeilDiv(items, perPage) else page
  }

  function Offset(page: int, perPage: int): int {
    ((if page == 0 then 1 else page) - 1) * perPage
  }

  /** After SetItems on a pager at page 1 or later, the page exists and its offset is inside the
      items; without items the page is 0 and the offset 0. */
  lemma ClampedPageIsValid(page: int, items: nat, perPage: nat)
    requires page >= 1 && perPage >= 1
    ensures var p := Clamped(page, items, perPage);
            if items > 0 then 1 <= p <= CeilDiv(items, perPage) && 0 <= Offset(p, perPage) < items
            else p == 0 && Offset(p, perPage) == 0
  {
    CeilDivIs(items, perPage);
    if items > 0 {
      var p, c := Clamped(page, items, perPage), CeilDiv(items, perPage);
      Ordered(p - 1, c - 1, perPage);
    }
  }

  lemma Ordered(a: int, b: int, p: int)
    requires 0 <= a <= b && p >= 1
    ensures 0 <= a * p <= b * p
  {
  }

  ghost predicate InWindow(i: int, page: int, items: int, perPage: int) {
    Offset(page, perPage) <= i < Offset(page, perPage) + perPage && i < items
  }

  /** The windows of the pages 1..Pages partition the items: each item is on exactly one of them. */
  lemma WindowsPartition(i: nat, items: nat, perPage: nat)
    requires i < items && perPage >= 1
    ensures var home := i / perPage + 1;
            && 1 <= home <= CeilDiv(items, perPage) && InWindow(i, home, items, perPage)
            && (forall page :: 1 <= page <= CeilDiv(items, perPage) && InWindow(i, page, items, perPage) ==>
                page == home)
  {
    CeilDivIs(items, perPage);
    var k, c := i / perPage, CeilDiv(items, perPage);
    assert i == k * perPage + i % perPage;
    CancelInt(k, c, perPage);
    forall page | 1 <= page <= c && InWindow(i, page, items, perPage)
      ensures page == k + 1
    {
      assert page * perPage == (page - 1) * perPage + perPage && (k + 1) * perPage == k * perPage + perPage;
      CancelInt(k, page, perPage);
      CancelInt(page - 1, k + 1, perPage);
    }
  }

  lemma CancelInt(a: int, b: int, p: int)
    requires a * p < b * p && p >= 1
    ensures a < b
  {
    if a >= b {
      MulMono(b, a, p);
    }
  }

  /** The questions of the templates mean what they say: a page is the beginning exactly when no item
      comes before its window, and the end exactly when none comes after it. */
  lemma BeginningAndEnd(pager: Pager)
    requires pager.itemsPerPage >= 1 && pager.items > 0
    requires pager.pages == CeilDiv(pager.items, pager.itemsPerPage) && 1 <= pager.page <= pager.pages
    ensures pager.IsBeginning() <==> Offset(pager.page, pager.itemsPerPage) == 0
    ensures pager.IsEnd() <==> Offset(pager.page, pager.itemsPerPage) + pager.itemsPerPage >= pager.items
  {
    var page, n, c := pager.page, pager.itemsPerPage, pager.pages;
    CeilDivIs(pager.items, n);
    assert Offset(page, n) + n == page * n;
    if page < c {
      Ordered(page, c - 1, n);
    }
    if page > 1 {
      Ordered(1, page - 1, n);
    }
  }
}
