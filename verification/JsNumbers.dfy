/**
 How the web client shows an integer: it converts it to a double-precision number, and writes that number with as
 few decimal digits as still name it, as Number::toString of ECMA-262 says.
 */
module JsNumbers {

  import opened Prelude

  // The distance between neighbouring numbers at m. Below 2 to the power 53 every integer is a number of its own.
  function Spacing(m: nat): (u: nat)
    ensures u > 0
  {
    if m < 9007199254740992 then 1 else 2 * Spacing(m / 2)
  }

  // The multiple of u nearest to m; of two, the one with an even quotient.
  function RoundTo(m: nat, u: nat): nat
    requires u > 0
  {
    if 2 * (m % u) > u || (2 * (m % u) == u && m / u % 2 == 1) then (m / u + 1) * u else m / u * u
  }

  // The number nearest to m; of two, the one with an even significand.
  function Nearest(m: nat): nat {
    RoundTo(m, Spacing(m))
  }

  function Pow10(j: nat): (p: nat)
    ensures p > 0
  {
    if j == 0 then 1 else 10 * Pow10(j - 1)
  }

  // Of the multiples of p around the number x, the quotient of the nearest that reads as x; of two, the even one.
  // Zero if neither does.
  function Quotient(x: nat, p: nat): (q: nat)
    requires p > 0
    ensures q > 0 ==> Nearest(q * p) == x
  {
    var q := x / p;
    var lowReads, highReads := q > 0 && Nearest(q * p) == x, Nearest((q + 1) * p) == x;
    var below, above := x - q * p, (q + 1) * p - x;
    if lowReads && (!highReads || below < above || (below == above && q % 2 == 0)) then q
    else if highReads then q + 1
    else 0
  }

  // The decimal with the fewest digits that reads as x, among those with at most j zeros at the end.
  function Shortest(x: nat, j: nat): nat
    decreases j
  {
    if j == 0 then x
    else
      var q := Quotient(x, Pow10(j));
      if q > 0 then q * Pow10(j) else Shortest(x, j - 1)
  }

  // An integer of 64 bits has at most 19 digits.
  function Shown(n: int): int {
    if n < 0 then -(Shortest(Nearest(-n), 19) as int) else Shortest(Nearest(n), 19)
  }

  // ---------------------------------------------------------------- what is shown exactly

  lemma {:induction false} WideSpacing(m: nat)
    requires m >= 9007199254740992
    ensures Spacing(m) % 2 == 0 && m / Spacing(m) >= 4503599627370496
  {
    var h := m / 2;
    if h >= 9007199254740992 {
      WideSpacing(h);
      HalfQuotient(m, Spacing(h));
    }
  }

  lemma HalfQuotient(m: nat, u: nat)
    requires u > 0
    ensures m / (2 * u) == m / 2 / u
  {
    var h, q, r := m / 2, m / 2 / u, m / 2 % u;
    assert h == q * u + r;
    var rest := 2 * r + m % 2;
    assert m == q * (2 * u) + rest && 0 <= rest < 2 * u;
    QuotientIs(m, 2 * u, q, rest);
  }

  lemma Division(m: nat, u: nat, low: nat, high: nat)
    requires u > 0 && low == m / u * u && high == (m / u + 1) * u
    ensures m - u < low <= m < high <= m + u
  {
    assert m == m / u * u + m % u;
  }

  // The two multiples of u around m.
  lemma Around(m: nat, u: nat)
    requires u > 0
    ensures m / u * u <= m < (m / u + 1) * u
    ensures RoundTo(m, u) == m / u * u || RoundTo(m, u) == (m / u + 1) * u
  {
    Division(m, u, m / u * u, (m / u + 1) * u);
  }

  lemma RoundNear(m: nat, u: nat)
    requires u > 0
    ensures m - u < RoundTo(m, u) <= m + u
  {
    Division(m, u, m / u * u, (m / u + 1) * u);
  }

  lemma SmallIsNumber(m: nat)
    requires m < 9007199254740992
    ensures Nearest(m) == m
  {
  }

  lemma LargeIsEven(m: nat)
    requires m >= 9007199254740992
    ensures Nearest(m) >= 9007199254740992 && Nearest(m) % 2 == 0
  {
    WideSpacing(m);
    var u := Spacing(m);
    var h := u / 2;
    assert u == 2 * h;
    EvenProduct(m / u, h);
    EvenProduct(m / u + 1, h);
  }

  lemma EvenProduct(q: nat, h: nat)
    requires h > 0
    ensures q * (2 * h) == 2 * (q * h) && q * h >= q
  {
  }

  // Around a small number only the number itself reads as it.
  lemma SmallQuotient(x: nat, p: nat)
    requires x < 9007199254740992 && p > 0
    ensures Quotient(x, p) > 0 ==> Quotient(x, p) * p == x
  {
    hide Nearest;
    var q := x / p;
    var low, high := q * p, (q + 1) * p;
    assert low <= x < high by { assert x == q * p + x % p; }
    SmallIsNumber(low);
    if high < 9007199254740992 { SmallIsNumber(high); } else { LargeIsEven(high); }
  }

  lemma {:induction false} SmallStays(x: nat, j: nat)
    requires x < 9007199254740992
    ensures Shortest(x, j) == x
    decreases j
  {
    if j > 0 {
      hide Quotient;
      SmallQuotient(x, Pow10(j));
      SmallStays(x, j - 1);
    }
  }

  lemma {:induction false} EvenStays(x: nat, j: nat)
    requires x % 2 == 0
    ensures Shortest(x, j) % 2 == 0
    decreases j
  {
    if j > 0 {
      hide Quotient;
      EvenStays(x, j - 1);
      EvenMultiple(Quotient(x, Pow10(j)), j);
    }
  }

  lemma EvenMultiple(q: nat, j: nat)
    requires j > 0
    ensures q * Pow10(j) % 2 == 0
  {
    var h := 5 * Pow10(j - 1);
    assert Pow10(j) == 2 * h;
    hide Pow10;
    EvenProduct(q, h);
  }

  // Every integer of at most 53 bits is shown as it is.
  lemma SafeShown(n: int)
    requires -9007199254740992 < n < 9007199254740992
    ensures Shown(n) == n
  {
    var m := if n < 0 then -n else n;
    SmallIsNumber(m);
    SmallStays(m, 19);
  }

  // No odd integer beyond is, and the first of them is shown as its even neighbour.
  lemma OddNeverShown(n: int)
    requires n % 2 == 1 && !(-9007199254740992 < n < 9007199254740992)
    ensures Shown(n) != n
  {
    var m := if n < 0 then -n else n;
    LargeIsEven(m);
    EvenStays(Nearest(m), 19);
  }

  lemma FirstShownWrong()
    ensures Shown(9007199254740993) == 9007199254740992
  {
    assert Spacing(9007199254740993) == 2 * Spacing(4503599627370496) == 2;
    assert Nearest(9007199254740993) == 9007199254740992;
    FirstStays(19);
  }

  lemma {:induction false} FirstStays(j: nat)
    ensures Shortest(9007199254740992, j) == 9007199254740992
    decreases j
  {
    if j > 0 {
      hide Quotient;
      FirstQuotient(Pow10(j - 1));
      FirstStays(j - 1);
    }
  }

  lemma FirstQuotient(h: nat)
    requires h > 0
    ensures Quotient(9007199254740992, 10 * h) == 0
  {
    hide Nearest;
    var x, p := 9007199254740992, 10 * h;
    var q := x / p;
    var low, high := q * p, (q + 1) * p;
    assert low <= x < high by { assert x == q * p + x % p; }
    assert low == 10 * (q * h) && high == 10 * ((q + 1) * h);
    assert low <= 9007199254740990 && high >= 9007199254741000;
    SmallIsNumber(low);
    NextReads(high);
  }

  lemma NextReads(m: nat)
    requires m >= 9007199254741000
    ensures Nearest(m) > 9007199254740992
  {
    var u := Spacing(m);
    if m < 18014398509481984 {
      assert u == 2 * Spacing(m / 2) == 2;
    } else {
      WideSpacing(m);
      WideSpacing(m / 2);
      assert u == 2 * Spacing(m / 2) >= 4;
      Monotone(4503599627370496, m / u, 4, u);
      Monotone(4503599627370496, m / u + 1, 4, u);
    }
  }

  // ---------------------------------------------------------------- the largest integer

  lemma {:induction false} SpacingIs(m: nat, k: nat)
    requires 4503599627370496 * Pow2(k) <= m < 9007199254740992 * Pow2(k)
    ensures Spacing(m) == Pow2(k)
    decreases k
  {
    if k > 0 { SpacingIs(m / 2, k - 1); }
  }

  lemma NearestNear(m: nat)
    requires m > 0
    ensures var u := Spacing(m); m - u < Nearest(m) <= m + u
  {
    hide RoundTo, Spacing;
    RoundNear(m, Spacing(m));
  }

  lemma SpacingFits(m: nat)
    requires m > 0
    ensures Spacing(m) <= m && m < 2 * Nearest(m) && Nearest(m) <= 2 * m
  {
    var u := Spacing(m);
    if m >= 9007199254740992 { WideSpacing(m); }
    assert m / u >= 1;
    hide RoundTo, Spacing;
    LargeRounds(m, u, m / u);
  }

  lemma LargeRounds(m: nat, u: nat, q: nat)
    requires u > 0 && q == m / u >= 1
    ensures u <= m && m < 2 * RoundTo(m, u) && RoundTo(m, u) <= 2 * m
  {
    hide RoundTo;
    Around(m, u);
    Monotone(1, q, u, u);
    assert (q + 1) * u == q * u + u;
  }

  // The multiples of 10000 around 2 to the power 63 read as other numbers.
  lemma LargestQuotient(h: nat)
    requires h > 0
    ensures Quotient(9223372036854775808, 10000 * h) == 0
  {
    hide Nearest;
    var x, p := 9223372036854775808, 10000 * h;
    var q := x / p;
    var low, high := q * p, (q + 1) * p;
    assert low <= x < high by { assert x == q * p + x % p; }
    assert low == 10000 * (q * h) && high == 10000 * ((q + 1) * h);
    assert low <= 9223372036854770000 && high >= 9223372036854780000;
    if q > 0 { LowReadsLess(low); }
    HighReadsMore(high);
  }

  lemma LowReadsLess(m: nat)
    requires 0 < m <= 9223372036854770000
    ensures Nearest(m) < 9223372036854775808
  {
    SpacingFits(m);
    if m >= 4611686018427387904 {
      assert Pow2(10) == 1024;
      SpacingIs(m, 10);
      NearestNear(m);
    }
  }

  lemma HighReadsMore(m: nat)
    requires m >= 9223372036854780000
    ensures Nearest(m) > 9223372036854775808
  {
    SpacingFits(m);
    if m < 18446744073709551616 {
      assert Pow2(11) == 2048;
      SpacingIs(m, 11);
      NearestNear(m);
    }
  }

  lemma {:induction false} LargestPasses(x: nat, j: nat)
    requires x == 9223372036854775808 && j >= 3
    ensures Shortest(x, j) == Shortest(x, 3)
    decreases j
  {
    if j > 3 {
      hide Quotient, Pow10, Shortest;
      Pow10Four(j - 4);
      LargestQuotient(Pow10(j - 4));
      NoneAt(x, j);
      LargestPasses(x, j - 1);
    }
  }

  lemma Pow10Four(j: nat)
    ensures Pow10(j + 4) == 10000 * Pow10(j)
  {
    assert Pow10(j + 2) == 10 * Pow10(j + 1) && Pow10(j + 3) == 10 * Pow10(j + 2);
  }

  lemma NoneAt(x: nat, j: nat)
    requires j > 0 && Quotient(x, Pow10(j)) == 0
    ensures Shortest(x, j) == Shortest(x, j - 1)
  {
  }

  // The largest integer of 64 bits is shown as a larger one.
  lemma LargestShown()
    ensures Shown(9223372036854775807) == 9223372036854776000
  {
    assert Pow2(10) == 1024 && Pow2(11) == 2048;
    SpacingIs(9223372036854775807, 10);
    SpacingIs(9223372036854775000, 10);
    SpacingIs(9223372036854776000, 11);
    assert Nearest(9223372036854775807) == 9223372036854775808;
    assert Nearest(9223372036854775000) == 9223372036854774784;
    assert Nearest(9223372036854776000) == 9223372036854775808;
    assert Pow10(3) == 1000;
    assert Quotient(9223372036854775808, 1000) == 9223372036854776;
    LargestPasses(9223372036854775808, 19);
  }

}
