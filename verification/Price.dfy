/** The two directions of the price conversion, in exact integers rounded half up. */
module Price {
  import opened Transactions

  /** The quotient rounded to the nearest integer, a tie upwards. */
  lemma {:induction false} RoundDivNearest(n: nat, d: nat)
    requires d > 0
    ensures var q := RoundDiv(n, d); 2 * (d * q) - d <= 2 * n < 2 * (d * q) + d
  {
    var q := RoundDiv(n, d);
    assert (2 * d) * q <= 2 * n + d < (2 * d) * q + 2 * d;
    assert (2 * d) * q == 2 * (d * q);
  }

  /** And no other integer is that near. */
  lemma {:induction false} RoundDivUnique(n: nat, d: nat, q: nat)
    requires d > 0 && 2 * (d * q) - d <= 2 * n < 2 * (d * q) + d
    ensures RoundDiv(n, d) == q
  {
    RoundDivNearest(n, d);
    var r := RoundDiv(n, d);
    if r < q {
      MulStep(d, r, q);
    } else if q < r {
      MulStep(d, q, r);
    }
  }

  lemma MulStep(d: nat, q: nat, r: nat)
    requires q < r
    ensures d * q + d <= d * r
  {
    assert d * (q + 1) <= d * r;
  }

  lemma {:induction false} RoundDivMonotone(m: nat, n: nat, d: nat)
    requires d > 0 && m <= n
    ensures RoundDiv(m, d) <= RoundDiv(n, d)
  {
    RoundDivNearest(m, d);
    RoundDivNearest(n, d);
    if RoundDiv(n, d) < RoundDiv(m, d) {
      MulStep(d, RoundDiv(n, d), RoundDiv(m, d));
    }
  }

  /** More gas never costs less, and more money never buys less. */
  lemma {:induction false} Monotone(x: nat, y: nat, price: nat)
    requires price > 0 && x <= y
    ensures AmountFromGrams(x, price) <= AmountFromGrams(y, price)
    ensures GramsFromAmount(x, price) <= GramsFromAmount(y, price)
  {
    assert x * price <= y * price;
    RoundDivMonotone(x * price, y * price, 1000);
    RoundDivMonotone(x * 1000, y * 1000, price);
  }

  /** Buying for an amount and pricing the gas again is off by at most half a gram's price and half a kobo. */
  lemma {:induction false} AmountRoundTrip(amount: nat, price: nat)
    requires price > 0
    ensures var again := AmountFromGrams(GramsFromAmount(amount, price), price);
      -(price + 1000) <= 2000 * (amount - again) <= price + 1000
  {
    var grams := GramsFromAmount(amount, price);
    RoundDivNearest(amount * 1000, price);
    RoundDivNearest(grams * price, 1000);
  }

  /** From a price of a kobo a gram on, pricing a size and buying for that amount gives the size back. */
  lemma {:induction false} GramsRoundTrip(grams: nat, price: nat)
    requires price >= 1000
    ensures GramsFromAmount(AmountFromGrams(grams, price), price) == grams
  {
    var amount := AmountFromGrams(grams, price);
    RoundDivNearest(grams * price, 1000);
    if price == 1000 {
      assert amount == grams;
    }
    RoundDivUnique(amount * 1000, price, grams);
  }

  /** Below it two neighbouring sizes cost the same. */
  lemma SizesCollide(price: nat) returns (grams: nat)
    requires 0 < price < 1000
    ensures AmountFromGrams(grams, price) == AmountFromGrams(grams + 1, price)
  {
    var discount := 1000 - price;
    grams := 500 / discount;
    assert discount * grams <= 500 < discount * grams + discount;
    assert grams * price == 1000 * grams - discount * grams;
    assert (grams + 1) * price == 1000 * grams + 1000 - discount * grams - discount;
    RoundDivUnique(grams * price, 1000, grams);
    RoundDivUnique((grams + 1) * price, 1000, grams);
  }

  predicate SizeSurvives(grams: nat, price: nat)
    requires price > 0
  {
    GramsFromAmount(AmountFromGrams(grams, price), price) == grams
  }

  /** Sizes survive the round trip at a price if and only if it is at least 1000 kobo a kilogram. */
  lemma {:induction false} SizesSurviveExactly(price: nat)
    requires price > 0
    ensures (forall grams: nat :: SizeSurvives(grams, price)) <==> price >= 1000
  {
    if price >= 1000 {
      forall grams: nat ensures SizeSurvives(grams, price) {
        GramsRoundTrip(grams, price);
      }
    } else {
      var grams := SizesCollide(price);
      assert !(SizeSurvives(grams, price) && SizeSurvives(grams + 1, price));
    }
  }
}
