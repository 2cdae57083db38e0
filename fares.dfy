/**
 * Fare arithmetic of the booking page (src/components/bookings/BookingPage.js:94-98,
 * 187-205, 855, 863): per-category discounts, one rounding of the discounted
 * aggregate, 5% GST on top.  Amounts are whole rupees; the discounted sum is
 * kept exactly in hundredths of a rupee ("cents") and rounded the way
 * `Math.round` rounds: halves go up.
 */
module Fares {

  datatype AgeCategory = Adult | Child | Senior

  /** `AGE_CATEGORIES[...].discount`, as a percentage. */
  function DiscountPercent(c: AgeCategory): (pct: nat)
    ensures pct <= 50
    ensures pct == 0 <==> c == Adult
    ensures c != Adult ==> pct >= 40
  {
    match c
    case Adult => 0
    case Child => 50
    case Senior => 40
  }

  /** `Math.round(num / den)`: the nearest integer, halves rounded up. */
  function RoundHalfUp(num: int, den: nat): (r: int)
    requires den > 0
    ensures 2 * den * r <= 2 * num + den < 2 * den * (r + 1)
  {
    var q := (2 * num + den) / (2 * den);
    assert 2 * den * q <= 2 * num + den < 2 * den * (q + 1) by {
      DivBounds(2 * num + den, 2 * den);
    }
    q
  }

  lemma DivBounds(a: int, b: int)
    requires b > 0
    ensures b * (a / b) <= a < b * (a / b + 1)
  {
  }

  /** `Σ price · (100 − discount)` over the passengers, in cents. */
  function DiscountedCents(cats: seq<AgeCategory>, price: nat): nat {
    if cats == [] then 0
    else DiscountedCents(cats[..|cats| - 1], price) + price * (100 - DiscountPercent(cats[|cats| - 1]))
  }

  /** `totalFare`: the undiscounted price of every passenger. */
  function TotalFare(passengerCount: nat, price: nat): nat {
    passengerCount * price
  }

  /** `discountedFare`: the discounted sum, rounded once at the aggregate. */
  function DiscountedFare(cats: seq<AgeCategory>, price: nat): int {
    RoundHalfUp(DiscountedCents(cats, price), 100)
  }

  /** `Math.round(discountedFare * 0.05)`: the GST line. */
  function Gst(discounted: int): int {
    RoundHalfUp(discounted * 5, 100)
  }

  /** `Math.round(discountedFare * 1.05)`: the total payable, also handed to payment. */
  function TotalPayable(discounted: int): int {
    RoundHalfUp(discounted * 105, 100)
  }

  predicate AllAdults(cats: seq<AgeCategory>) {
    forall i :: 0 <= i < |cats| ==> cats[i] == Adult
  }

  /**
   * The fare effect's `forEach`: a running base fare and a running
   * discounted amount, rounded once after the loop.
   */
  method AccumulateFares(cats: seq<AgeCategory>, price: nat) returns (baseFare: nat, discounted: int)
    ensures baseFare == TotalFare(|cats|, price)
    ensures discounted == DiscountedFare(cats, price)
  {
    baseFare := 0;
    var cents := 0;
    var k := 0;
    while k < |cats|
      invariant k <= |cats|
      invariant baseFare == k * price
      invariant cents == DiscountedCents(cats[..k], price)
    {
      baseFare := baseFare + price;
      assert cats[..k + 1][..k] == cats[..k];
      cents := cents + price * (100 - DiscountPercent(cats[k]));
      k := k + 1;
    }
    assert cats[..k] == cats;
    discounted := RoundHalfUp(cents, 100);
  }

  /** The discounted sum never exceeds the full price, and reaches it exactly when
      every passenger is an adult; each other passenger takes off at least 40%. */
  lemma {:induction false} DiscountedCentsBounds(cats: seq<AgeCategory>, price: nat)
    ensures DiscountedCents(cats, price) <= 100 * TotalFare(|cats|, price)
    ensures AllAdults(cats) ==> DiscountedCents(cats, price) == 100 * TotalFare(|cats|, price)
    ensures !AllAdults(cats) ==> DiscountedCents(cats, price) <= 100 * TotalFare(|cats|, price) - 40 * price
  {
    if cats != [] {
      var init := cats[..|cats| - 1];
      var last := cats[|cats| - 1];
      DiscountedCentsBounds(init, price);
      TotalFareStep(|init|, price);
      CentsOfOne(last, price);
      if AllAdults(cats) {
        assert AllAdults(init) && last == Adult;
      }
    }
  }

  /** One passenger's share in cents: the full 100 · price for an adult, at most
      60 · price otherwise. */
  lemma CentsOfOne(c: AgeCategory, price: nat)
    ensures c == Adult ==> price * (100 - DiscountPercent(c)) == 100 * price
    ensures c != Adult ==> price * (100 - DiscountPercent(c)) <= 100 * price - 40 * price
  {
  }

  /** Fare monotonicity: the discounted fare never exceeds the base fare. */
  lemma FareNeverExceedsBase(cats: seq<AgeCategory>, price: nat)
    ensures DiscountedFare(cats, price) <= TotalFare(|cats|, price)
  {
    DiscountedCentsBounds(cats, price);
    RoundedBelow(DiscountedCents(cats, price), TotalFare(|cats|, price), DiscountedFare(cats, price));
  }

  /** Rounding a number of cents no larger than `100 · t` gives no more than `t`. */
  lemma RoundedBelow(cents: int, t: int, r: int)
    requires cents <= 100 * t && 200 * r <= 2 * cents + 100
    ensures r <= t
  {
  }

  /**
   * The two fares agree exactly when every passenger is an adult.  The price
   * must be at least 2: at a price of 1 a child's half rupee rounds back up
   * to 1 (see `ChildAtOneRupeeRoundsUp`).
   */
  lemma FareEqualsBaseIffAllAdults(cats: seq<AgeCategory>, price: nat)
    requires price >= 2
    ensures DiscountedFare(cats, price) == TotalFare(|cats|, price) <==> AllAdults(cats)
  {
    DiscountedCentsBounds(cats, price);
    var c := DiscountedCents(cats, price);
    var r := DiscountedFare(cats, price);
    var t := TotalFare(|cats|, price);
    if AllAdults(cats) {
      RoundedExact(c, t, r);
    } else {
      RoundedStrictlyBelow(c, t, r, price);
    }
  }

  /** Whole rupees in cents round back to themselves. */
  lemma RoundedExact(cents: int, t: int, r: int)
    requires cents == 100 * t && 200 * r <= 2 * cents + 100 < 200 * (r + 1)
    ensures r == t
  {
  }

  /** Forty percent of a price of at least 2 is more than the half rupee rounding can add. */
  lemma RoundedStrictlyBelow(cents: int, t: int, r: int, price: int)
    requires price >= 2 && cents <= 100 * t - 40 * price && 200 * r <= 2 * cents + 100
    ensures r < t
  {
  }

  lemma UniqueQuotient(a: int, b: int, q1: int, q2: int)
    requires b > 0
    requires b * q1 <= a < b * (q1 + 1)
    requires b * q2 <= a < b * (q2 + 1)
    ensures q1 == q2
  {
    MulCancelLess(b, q1, q2 + 1);
    MulCancelLess(b, q2, q1 + 1);
  }

  lemma MulCancelLess(b: int, x: int, y: int)
    requires b > 0 && b * x < b * y
    ensures x < y
  {
  }

  /** Why `FareEqualsBaseIffAllAdults` needs a price of at least 2. */
  lemma ChildAtOneRupeeRoundsUp()
    ensures DiscountedFare([Child], 1) == TotalFare(1, 1) == 1
  {
    assert DiscountedCents([Child], 1) == 50;
    assert [Child][..0] == [];
  }

  /** Adding a passenger never lowers either fare. */
  lemma FareGrowsWithPassengers(cats: seq<AgeCategory>, c: AgeCategory, price: nat)
    ensures DiscountedFare(cats, price) <= DiscountedFare(cats + [c], price)
    ensures TotalFare(|cats|, price) <= TotalFare(|cats + [c]|, price)
  {
    DiscountedCentsAppend(cats, c, price);
    RoundHalfUpMonotone(DiscountedCents(cats, price), DiscountedCents(cats + [c], price), 100);
    TotalFareStep(|cats|, price);
  }

  lemma DiscountedCentsAppend(cats: seq<AgeCategory>, c: AgeCategory, price: nat)
    ensures DiscountedCents(cats + [c], price) == DiscountedCents(cats, price) + price * (100 - DiscountPercent(c))
  {
    assert (cats + [c])[..|cats|] == cats;
  }

  lemma TotalFareStep(n: nat, price: nat)
    ensures TotalFare(n + 1, price) == TotalFare(n, price) + price
  {
  }

  lemma RoundHalfUpMonotone(a: int, b: int, den: nat)
    requires den > 0 && a <= b
    ensures RoundHalfUp(a, den) <= RoundHalfUp(b, den)
  {
    var ra, rb := RoundHalfUp(a, den), RoundHalfUp(b, den);
    MulCancelLess(2 * den, ra, rb + 1);
  }

  /** The fare summary adds up: discounted fare plus GST is the total payable. */
  lemma GstCompletesTotal(discounted: int)
    ensures discounted + Gst(discounted) == TotalPayable(discounted)
  {
    var g := Gst(discounted);
    var t := TotalPayable(discounted);
    assert 200 * g <= 10 * discounted + 100 < 200 * (g + 1);
    assert 200 * t <= 210 * discounted + 100 < 200 * (t + 1);
    assert 200 * (discounted + g) <= 210 * discounted + 100 < 200 * (discounted + g + 1);
    UniqueQuotient(210 * discounted + 100, 200, t, discounted + g);
  }

  /** Two adults in 2A at 1900: base 3800, nothing off, GST 190, total 3990. */
  lemma TwoAdultsIn2A()
    ensures TotalFare(2, 1900) == 3800
    ensures DiscountedFare([Adult, Adult], 1900) == 3800
    ensures Gst(3800) == 190 && TotalPayable(3800) == 3990
  {
    assert [Adult, Adult][..1] == [Adult];
    assert [Adult][..0] == [];
  }

  /** An adult and a senior in 2A at 1900: 1900 + 1140 = 3040, GST 152, total 3192. */
  lemma AdultAndSeniorIn2A()
    ensures TotalFare(2, 1900) == 3800
    ensures DiscountedFare([Adult, Senior], 1900) == 3040
    ensures Gst(3040) == 152 && TotalPayable(3040) == 3192
  {
    assert [Adult, Senior][..1] == [Adult];
    assert [Adult][..0] == [];
  }

  /**
   * A child and five seniors at 501: the exact discounted sum is 250.5 + 5 · 300.6
   * = 1753.5, which rounds up to 1754.  (The page sums in doubles and reaches
   * 1753.4999999999995, so it shows 1753.)
   */
  lemma ChildAndFiveSeniorsAt501()
    ensures DiscountedCents([Child, Senior, Senior, Senior, Senior, Senior], 501) == 175350
    ensures DiscountedFare([Child, Senior, Senior, Senior, Senior, Senior], 501) == 1754
  {
    var cats := [Child, Senior, Senior, Senior, Senior, Senior];
    assert cats[..5] == [Child, Senior, Senior, Senior, Senior];
    assert cats[..5][..4] == [Child, Senior, Senior, Senior];
    assert cats[..5][..4][..3] == [Child, Senior, Senior];
    assert cats[..5][..4][..3][..2] == [Child, Senior];
    assert cats[..5][..4][..3][..2][..1] == [Child];
    assert [Child][..0] == [];
    assert DiscountedCents([Child], 501) == 25050;
    assert DiscountedCents([Child, Senior], 501) == 55110;
    assert DiscountedCents([Child, Senior, Senior], 501) == 85170;
    assert DiscountedCents([Child, Senior, Senior, Senior], 501) == 115230;
    assert DiscountedCents([Child, Senior, Senior, Senior, Senior], 501) == 145290;
  }

  /** The fare lines the payment page shows: base fare, GST, total. */
  datatype FareLines = FareLines(baseFare: int, gst: int, totalFare: int)

  /**
   * The payment page's split of the received total, as written at
   * src/components/bookings/PaymentPage.js:87-89: `round(total · 0.95)` and
   * `round(total · 0.05)`.  Taking 95% of a total that is 105% of the base
   * does not give back the base, so the lines need not add up.
   */
  function SplitReceivedTotal(total: int): FareLines {
    FareLines(RoundHalfUp(total * 95, 100), RoundHalfUp(total * 5, 100), total)
  }

  /** For two adults in 2A the payment page shows 3791 + 200 against a total of 3990,
      where the booking page showed 3800 + 190. */
  lemma SplitReceivedTotalDisagrees()
    ensures SplitReceivedTotal(3990) == FareLines(3791, 200, 3990)
    ensures 3791 + 200 != 3990
    ensures SplitReceivedTotal(TotalPayable(3800)) != FareLines(3800, Gst(3800), TotalPayable(3800))
  {
    assert TotalPayable(3800) == 3990;
  }

  /**
   * The page's split overshoots by at most one rupee, and it does so exactly
   * when the 5% share of the total ends in half a rupee, i.e. when the total
   * is 10 more than a multiple of 20.
   */
  lemma {:induction false} SplitReceivedTotalOvershoot(total: int)
    ensures var lines := SplitReceivedTotal(total);
      && total <= lines.baseFare + lines.gst <= total + 1
      && (lines.baseFare + lines.gst == total + 1 <==> total % 20 == 10)
  {
    var q, r := total / 20, total % 20;
    assert total == 20 * q + r;
    var lines := SplitReceivedTotal(total);
    if r < 10 {
      assert lines.baseFare == 19 * q + r;
      assert lines.gst == q;
    } else if r == 10 {
      assert lines.baseFare == 19 * q + 10;
      assert lines.gst == q + 1;
    } else {
      assert lines.baseFare == 19 * q + r - 1;
      assert lines.gst == q + 1;
    }
  }

  /**
   * The fare lines built from the discounted fare itself, as the booking
   * page computes them: they match the booking page's summary and add up.
   */
  function FareLinesFor(discounted: int): (lines: FareLines)
    ensures lines.baseFare + lines.gst == lines.totalFare
    ensures lines.totalFare == TotalPayable(discounted) && lines.gst == Gst(discounted)
  {
    GstCompletesTotal(discounted);
    FareLines(discounted, Gst(discounted), TotalPayable(discounted))
  }

  /**
   * The corrected lines keep the total the payment page charges and differ
   * from its split only in how that total is broken down.
   */
  lemma FareLinesForKeepsTotal(discounted: int)
    ensures FareLinesFor(discounted).totalFare == SplitReceivedTotal(TotalPayable(discounted)).totalFare
    ensures FareLinesFor(discounted).baseFare == discounted
  {
  }
}
