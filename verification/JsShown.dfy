/**
 What the digits shown for an integer are: of all decimals that read as the same number, one with the most zeros at
 the end, of those the nearest to the number, of two the one with an even digit before the zeros. So an integer is
 shown as it is exactly when it is preferred to every other integer with its number.
 */
module JsShown {

  import opened Prelude
  import opened JsNumbers

  // ---------------------------------------------------------------- rounding

  lemma {:induction false} SpacingDoubles(a: nat, b: nat)
    requires a <= b
    ensures Spacing(a) == Spacing(b) || 2 * Spacing(a) <= Spacing(b)
  {
    if a >= 9007199254740992 { SpacingDoubles(a / 2, b / 2); }
  }

  lemma {:induction false} SpacingTop(m: nat)
    ensures m < 9007199254740992 * Spacing(m)
  {
    if m >= 9007199254740992 { SpacingTop(m / 2); }
  }

  lemma QuotientBelow(m: nat, u: nat, c: nat)
    requires u > 0 && m < c * u
    ensures m / u + 1 <= c
  {
    if m / u >= c {
      Around(m, u);
      Monotone(c, m / u, u, u);
    }
  }

  lemma QuotientAbove(m: nat, u: nat, c: nat)
    requires u > 0 && c * u <= m
    ensures c <= m / u
  {
    if m / u < c {
      Around(m, u);
      Monotone(m / u + 1, c, u, u);
    }
  }

  // Rounding does not cross a multiple.
  lemma RoundsBelow(m: nat, u: nat, c: nat)
    requires u > 0 && m < c * u
    ensures RoundTo(m, u) <= c * u
  {
    hide RoundTo;
    Around(m, u);
    QuotientBelow(m, u, c);
    Monotone(m / u, c, u, u);
    Monotone(m / u + 1, c, u, u);
  }

  lemma RoundsAbove(m: nat, u: nat, c: nat)
    requires u > 0 && c * u <= m
    ensures c * u <= RoundTo(m, u)
  {
    hide RoundTo;
    Around(m, u);
    QuotientAbove(m, u, c);
    Monotone(c, m / u, u, u);
    Monotone(c, m / u + 1, u, u);
  }

  lemma RoundMonotone(a: nat, b: nat, u: nat)
    requires a <= b && u > 0
    ensures RoundTo(a, u) <= RoundTo(b, u)
  {
    hide RoundTo;
    var q := b / u;
    Around(b, u);
    if a < q * u {
      RoundsBelow(a, u, q);
      RoundsAbove(b, u, q);
    } else {
      QuotientAbove(a, u, q);
      QuotientBelow(a, u, q + 1);
      SameQuotient(a, b, u, q);
    }
  }

  lemma SameQuotient(a: nat, b: nat, u: nat, q: nat)
    requires a <= b && u > 0 && a / u == b / u == q
    ensures RoundTo(a, u) <= RoundTo(b, u)
  {
    assert a == q * u + a % u && b == q * u + b % u;
    assert (q + 1) * u == q * u + u;
  }

  // Nearest keeps the order, and the numbers themselves.
  lemma NearestMonotone(a: nat, b: nat)
    requires a <= b
    ensures Nearest(a) <= Nearest(b)
  {
    hide RoundTo, Spacing;
    var u, v := Spacing(a), Spacing(b);
    SpacingDoubles(a, b);
    if u == v {
      RoundMonotone(a, b, u);
    } else {
      SpacingTop(a);
      RoundsBelow(a, u, 9007199254740992);
      Wide(b);
      RoundsAbove(b, v, 4503599627370496);
    }
  }

  lemma Wide(m: nat)
    ensures Spacing(m) > 1 ==> m >= 9007199254740992 && 4503599627370496 * Spacing(m) <= m
  {
    if m >= 9007199254740992 {
      WideSpacing(m);
      hide Spacing;
      Around(m, Spacing(m));
      Monotone(4503599627370496, m / Spacing(m), Spacing(m), Spacing(m));
    }
  }

  lemma {:induction false} SpacingPower(m: nat) returns (k: nat)
    ensures Spacing(m) == Pow2(k)
  {
    if m < 9007199254740992 {
      k := 0;
    } else {
      k := SpacingPower(m / 2);
      k := k + 1;
    }
  }

  lemma MultipleStays(q: nat, u: nat)
    requires u > 0
    ensures RoundTo(q * u, u) == q * u
  {
    QuotientIs(q * u, u, q, 0);
    assert q * u == q * u / u * u + q * u % u;
  }

  // A number is its own nearest number.
  lemma NearestIsNumber(m: nat)
    ensures Nearest(Nearest(m)) == Nearest(m)
  {
    var u := Spacing(m);
    if m < 9007199254740992 {
      SmallIsNumber(m);
    } else {
      hide Spacing, RoundTo;
      var x := Nearest(m);
      Around(m, u);
      SpacingTop(m);
      RoundsBelow(m, u, 9007199254740992);
      WideSpacing(m);
      Wide(m);
      RoundsAbove(m, u, 4503599627370496);
      var q := if x == m / u * u then m / u else m / u + 1;
      if x < 9007199254740992 * u {
        var k := SpacingPower(m);
        SpacingIs(x, k);
        MultipleStays(q, u);
      } else {
        var k := SpacingPower(m);
        SpacingIs(x, k + 1);
        MultipleStays(4503599627370496, 2 * u);
      }
    }
  }

  // ---------------------------------------------------------------- zeros at the end

  function Zeros(t: nat): nat
    requires t > 0
  {
    if t % 10 == 0 then 1 + Zeros(t / 10) else 0
  }

  lemma MultipleRest(k: nat, d: nat)
    requires d > 0
    ensures k * d % d == 0 && k * d / d == k
  {
    QuotientIs(k * d, d, k, 0);
    assert k * d == k * d / d * d + k * d % d;
  }

  lemma TenTimes(t: nat, p: nat)
    requires p > 0
    ensures t % (10 * p) == 0 <==> t % 10 == 0 && t / 10 % p == 0
  {
    if t % (10 * p) == 0 {
      var k := t / (10 * p);
      assert t == k * (10 * p) == 10 * (k * p);
      MultipleRest(k, p);
    }
    if t % 10 == 0 && t / 10 % p == 0 {
      var k := t / 10 / p;
      assert t / 10 == k * p;
      assert t == k * (10 * p);
      MultipleRest(k, 10 * p);
    }
  }

  lemma {:induction false} ZerosDivide(t: nat, j: nat)
    requires t > 0
    ensures t % Pow10(j) == 0 <==> j <= Zeros(t)
    decreases j
  {
    if j > 0 {
      TenTimes(t, Pow10(j - 1));
      if t % 10 == 0 { ZerosDivide(t / 10, j - 1); }
    }
  }

  // ---------------------------------------------------------------- the digits that are shown

  function Distance(a: nat, b: nat): nat {
    if a < b then b - a else a - b
  }

  // As a decimal for the number x, t is preferred to k.
  predicate Preferred(x: nat, t: nat, k: nat)
    requires t > 0 && k > 0
  {
    || Zeros(k) < Zeros(t)
    || (Zeros(k) == Zeros(t) &&
        (|| Distance(t, x) < Distance(k, x)
         || (Distance(t, x) == Distance(k, x) && t / Pow10(Zeros(t)) % 2 == 0)))
  }

  // Of the decimals that read as the number x, t is preferred to all others.
  ghost predicate Chosen(x: nat, t: nat) {
    t > 0 && Nearest(t) == x && forall k :: k > 0 && k != t && Nearest(k) == x ==> Preferred(x, t, k)
  }

  // All that lies between a number and a decimal that reads as it reads as it.
  lemma ReadsBetween(x: nat, k: nat, a: nat)
    requires Nearest(x) == x && Nearest(k) == x && (k <= a <= x || x <= a <= k)
    ensures Nearest(a) == x
  {
    hide Nearest;
    if k <= x {
      NearestMonotone(k, a);
      NearestMonotone(a, x);
    } else {
      NearestMonotone(x, a);
      NearestMonotone(a, k);
    }
  }

  // Of the multiples around x, with quotients c and c + 1, q is that of the preferred one that reads as x.
  predicate Picks(x: nat, c: nat, low: nat, high: nat, q: nat) {
    var lowReads, highReads := c > 0 && Nearest(low) == x, Nearest(high) == x;
    if q == 0 then !lowReads && !highReads
    else if q == c then lowReads && (highReads ==> x - low < high - x || (x - low == high - x && q % 2 == 0))
    else q == c + 1 && highReads && (lowReads ==> high - x < x - low || (high - x == x - low && q % 2 == 0))
  }

  // The quotient found is that of the multiple below or above, whichever reads as x, is nearer, or is even.
  lemma QuotientCases(x: nat, p: nat, low: nat, high: nat)
    requires p > 0 && low == x / p * p && high == (x / p + 1) * p
    ensures Picks(x, x / p, low, high, Quotient(x, p))
  {
    hide Nearest;
  }

  // The multiple k, with quotient r, lies where its quotient says.
  predicate Placed(c: nat, low: nat, high: nat, r: nat, k: nat) {
    if r < c then k < low else if r == c then k == low else if r == c + 1 then k == high else k > high
  }

  lemma PickFinds(x: nat, c: nat, low: nat, high: nat, q: nat, t: nat, r: nat, k: nat)
    requires Nearest(x) == x && low <= x < high && Picks(x, c, low, high, q) && Placed(c, low, high, q, t)
    requires r > 0 && Placed(c, low, high, r, k) && Nearest(k) == x
    ensures q > 0
    ensures r == q || Distance(t, x) < Distance(k, x) || (Distance(t, x) == Distance(k, x) && q % 2 == 0)
  {
    hide Nearest;
    if r <= c { ReadsBetween(x, k, low); } else { ReadsBetween(x, k, high); }
  }

  lemma MultiplePlaced(x: nat, p: nat, r: nat, k: nat, low: nat, high: nat)
    requires p > 0 && k == r * p && low == x / p * p && high == (x / p + 1) * p
    ensures Placed(x / p, low, high, r, k)
  {
    if r < x / p { Apart(r, x / p, p); } else if r > x / p + 1 { Apart(x / p + 1, r, p); }
  }

  lemma Below(x: nat, p: nat, low: nat, high: nat)
    requires p > 0 && low == x / p * p && high == (x / p + 1) * p
    ensures low <= x < high
  {
    Division(x, p, low, high);
  }

  // If some multiple of p reads as x, the quotient found is that of the preferred one.
  lemma FindsBetween(x: nat, p: nat, low: nat, high: nat, q: nat, t: nat, r: nat, k: nat)
    requires p > 0 && low == x / p * p && high == (x / p + 1) * p && q == Quotient(x, p) && t == q * p && k == r * p
    requires Nearest(x) == x && r > 0 && Nearest(k) == x
    ensures q > 0
    ensures r == q || Distance(t, x) < Distance(k, x) || (Distance(t, x) == Distance(k, x) && q % 2 == 0)
  {
    hide Nearest, Quotient, Picks, Placed, Distance;
    Below(x, p, low, high);
    QuotientCases(x, p, low, high);
    MultiplePlaced(x, p, r, k, low, high);
    MultiplePlaced(x, p, q, t, low, high);
    PickFinds(x, x / p, low, high, q, t, r, k);
  }

  lemma QuotientFinds(x: nat, p: nat, r: nat, k: nat, q: nat, t: nat)
    requires p > 0 && q == Quotient(x, p) && t == q * p && k == r * p
    requires Nearest(x) == x && r > 0 && Nearest(k) == x
    ensures q > 0
    ensures r == q || Distance(t, x) < Distance(k, x) || (Distance(t, x) == Distance(k, x) && q % 2 == 0)
  {
    hide Nearest, Quotient, Distance;
    FindsBetween(x, p, x / p * p, (x / p + 1) * p, q, t, r, k);
  }

  lemma Apart(a: nat, b: nat, p: nat)
    requires a < b && p > 0
    ensures a * p < b * p
  {
    Monotone(a + 1, b, p, p);
    assert (a + 1) * p == a * p + p;
  }

  lemma WholeQuotient(k: nat, p: nat)
    requires k > 0 && p > 0 && k % p == 0
    ensures k / p > 0 && k == k / p * p && k >= p
  {
    assert k == k / p * p + k % p;
    Monotone(1, k / p, p, p);
  }

  // The multiples of 10 to the power j, given that none has more zeros.
  lemma FoundChosen(x: nat, j: nat, q: nat, t: nat)
    requires Nearest(x) == x && q == Quotient(x, Pow10(j)) > 0 && t == q * Pow10(j)
    requires forall k :: k > 0 && Nearest(k) == x ==> Zeros(k) <= j
    ensures Chosen(x, t)
  {
    hide Nearest, Zeros, Quotient;
    var p := Pow10(j);
    MultipleRest(q, p);
    Monotone(1, q, 1, p);
    ZerosDivide(t, j);
    forall k | k > 0 && k != t && Nearest(k) == x ensures Preferred(x, t, k) {
      ZerosDivide(k, j);
      if Zeros(k) == j {
        WholeQuotient(k, p);
        QuotientFinds(x, p, k / p, k, q, t);
      }
    }
  }

  lemma {:induction false} ShortestChosen(x: nat, j: nat)
    requires x > 0 && Nearest(x) == x
    requires forall k :: k > 0 && Nearest(k) == x ==> Zeros(k) <= j
    ensures Chosen(x, Shortest(x, j))
    decreases j
  {
    hide Nearest, Quotient, Zeros;
    if j > 0 {
      if Quotient(x, Pow10(j)) > 0 {
        FoundChosen(x, j, Quotient(x, Pow10(j)), Shortest(x, j));
      } else {
        forall k | k > 0 && Nearest(k) == x ensures Zeros(k) <= j - 1 {
          ZerosDivide(k, j);
          if Zeros(k) >= j {
            WholeQuotient(k, Pow10(j));
            QuotientFinds(x, Pow10(j), k / Pow10(j), k, Quotient(x, Pow10(j)), Quotient(x, Pow10(j)) * Pow10(j));
          }
        }
        ShortestChosen(x, j - 1);
      }
    }
  }

  // ---------------------------------------------------------------- integers of 64 bits

  lemma Pow10Twenty()
    ensures Pow10(20) == 100000000000000000000
  {
    assert Pow10(0) == 1;
    hide Pow10;
    Pow10Four(0);
    Pow10Four(4);
    Pow10Four(8);
    Pow10Four(12);
    Pow10Four(16);
  }

  // No decimal with more than 19 zeros reads as an integer of 64 bits.
  lemma FewZeros(x: nat, k: nat)
    requires x <= 18446744073709551616 && k > 0 && Nearest(k) == x
    ensures Zeros(k) <= 19
  {
    hide Nearest, Zeros;
    ZerosDivide(k, 20);
    if Zeros(k) >= 20 {
      WholeQuotient(k, Pow10(20));
      Pow10Twenty();
      SpacingFits(k);
    }
  }

  // What is shown for m is preferred to every other decimal that reads as m does.
  lemma ShownIsChosen(m: nat)
    requires 0 < m <= 9223372036854775808
    ensures Chosen(Nearest(m), Shortest(Nearest(m), 19))
  {
    hide Nearest, Shortest;
    var x := Nearest(m);
    SpacingFits(m);
    NearestIsNumber(m);
    forall k | k > 0 && Nearest(k) == x ensures Zeros(k) <= 19 { FewZeros(x, k); }
    ShortestChosen(x, 19);
  }

  // There is one such decimal.
  lemma ChosenOnce(x: nat, a: nat, b: nat)
    requires x > 0 && Nearest(x) == x && Chosen(x, a) && Chosen(x, b)
    ensures a == b
  {
    hide Nearest, Zeros;
    if a != b {
      assert Preferred(x, a, b) && Preferred(x, b, a);
      var p := Pow10(Zeros(a));
      ZerosDivide(a, Zeros(a));
      ZerosDivide(b, Zeros(a));
      WholeQuotient(a, p);
      WholeQuotient(b, p);
      Middle(a / p, b / p, p, x);
      ZerosDivide(x, Zeros(a));
    }
  }

  lemma Middle(q: nat, r: nat, p: nat, x: nat)
    requires p > 0 && q % 2 == 0 && r % 2 == 0 && 2 * x == q * p + r * p
    ensures x % p == 0
  {
    var h := q / 2 + r / 2;
    assert 2 * h == q + r;
    assert 2 * (h * p) == (q + r) * p == q * p + r * p;
    MultipleRest(h, p);
  }

  // The integer is preferred, as a decimal for its number, to every other integer with that number.
  ghost predicate AsIs(n: int) {
    var m := if n < 0 then -n else n;
    n == 0 || Chosen(Nearest(m), m)
  }

  // An integer of 64 bits is shown as it is exactly when it is.
  lemma ShownExactly(n: int)
    requires -9223372036854775808 <= n <= 9223372036854775808
    ensures Shown(n) == n <==> AsIs(n)
  {
    hide Nearest, Shortest;
    if n == 0 {
      SafeShown(0);
    } else {
      var m := if n < 0 then -n else n;
      ShownIsChosen(m);
      NearestIsNumber(m);
      SpacingFits(m);
      if Chosen(Nearest(m), m) { ChosenOnce(Nearest(m), m, Shortest(Nearest(m), 19)); }
    }
  }

  // ---------------------------------------------------------------- from 2^53 to 2^54

  // Only odd integers besides itself read as an even one.
  lemma OthersAreOdd(m: nat, k: nat)
    requires 9007199254740992 <= m < 18014398509481984 && Nearest(k) == m && k != m
    ensures k % 2 == 1
  {
    if k < 9007199254740992 {
      SmallIsNumber(k);
    } else if k < 18014398509481984 {
      assert Spacing(k) == 2 * Spacing(k / 2) == 2;
    } else {
      Wide(k);
      WideSpacing(k / 2);
      assert Spacing(k) == 2 * Spacing(k / 2) >= 4;
      hide Spacing, RoundTo;
      RoundsAbove(k, Spacing(k), 4503599627370496);
    }
  }

  // There exactly the even integers are shown as they are.
  lemma EvenShownExactly(n: int)
    requires 9007199254740992 <= n < 18014398509481984 || -18014398509481984 < n <= -9007199254740992
    ensures Shown(n) == n <==> n % 2 == 0
  {
    if n % 2 == 1 {
      OddNeverShown(n);
    } else {
      var m := if n < 0 then -n else n;
      assert Spacing(m) == 2 * Spacing(m / 2) == 2;
      assert Nearest(m) == m;
      forall k | k > 0 && k != m && Nearest(k) == m ensures Preferred(m, m, k) {
        OthersAreOdd(m, k);
        assert Zeros(k) == 0;
      }
      ShownExactly(n);
    }
  }

  // Further on not even all numbers are: 2 to the power 54, plus 8, is shown with a zero at the end.
  lemma NumberNotShown()
    ensures Nearest(18014398509481992) == 18014398509481992 && Shown(18014398509481992) != 18014398509481992
  {
    assert Pow2(2) == 4;
    SpacingIs(18014398509481992, 2);
    SpacingIs(18014398509481990, 2);
    assert Nearest(18014398509481990) == 18014398509481992;
    assert Zeros(18014398509481992) == 0 && Zeros(18014398509481990) == 1 + Zeros(1801439850948199) == 1;
    assert !Preferred(18014398509481992, 18014398509481992, 18014398509481990);
    ShownExactly(18014398509481992);
  }

}
