/** The page count of `ListItemsUseCase::execute`: a quotient of doubles, rounded up. Doubles are
    the binary64 format of IEEE 754-2019 (section 3.3); division rounds to a nearest double, ties
    to the even one (section 4.3.1). */
module PageCount {
  import opened Results
  import opened Powers

  const P52: int := 0x10_0000_0000_0000
  const P53: int := 0x20_0000_0000_0000

  /** x times 2 to the power e, for any exponent. */
  function Shift(x: real, e: int): (r: real)
    decreases if e < 0 then -e else e
  {
    if e == 0 then x else if e > 0 then 2.0 * Shift(x, e - 1) else Shift(x, e + 1) / 2.0
  }

  /** A finite double: a significand of 53 bits times a power of two. */
  ghost predicate IsDouble(x: real) {
    exists m: int, e: int :: Significand(m, e) && x == Shift(m as real, e)
  }

  predicate Significand(m: int, e: int) { -P53 < m < P53 && -1074 <= e <= 971 }

  function Abs(x: real): real { if x < 0.0 then -x else x }

  /** d is a double, and no double is nearer to x. */
  ghost predicate Nearest(x: real, d: real) {
    IsDouble(d) && forall y | IsDouble(y) :: Abs(x - d) <= Abs(x - y)
  }

  lemma {:induction false} ShiftAdd(x: real, a: int, b: int)
    ensures Shift(Shift(x, a), b) == Shift(x, a + b)
    decreases if b < 0 then -b else b
  {
    if b > 0 {
      ShiftAdd(x, a, b - 1);
    } else if b < 0 {
      ShiftAdd(x, a, b + 1);
    }
  }

  lemma {:induction false} ShiftLinear(x: real, y: real, e: int)
    ensures Shift(x, e) - Shift(y, e) == Shift(x - y, e)
    decreases if e < 0 then -e else e
  {
    if e > 0 {
      ShiftLinear(x, y, e - 1);
    } else if e < 0 {
      ShiftLinear(x, y, e + 1);
    }
  }

  lemma {:induction false} ShiftMonotone(x: real, y: real, e: int)
    requires x <= y
    ensures Shift(x, e) <= Shift(y, e)
    decreases if e < 0 then -e else e
  {
    if e > 0 {
      ShiftMonotone(x, y, e - 1);
    } else if e < 0 {
      ShiftMonotone(x, y, e + 1);
    }
  }

  lemma {:induction false} ShiftAbs(x: real, e: int)
    ensures Abs(Shift(x, e)) == Shift(Abs(x), e)
    decreases if e < 0 then -e else e
  {
    if e > 0 {
      ShiftAbs(x, e - 1);
    } else if e < 0 {
      ShiftAbs(x, e + 1);
    }
  }

  lemma {:induction false} ShiftOfInt(m: int, k: nat)
    ensures Shift(m as real, k) == (m * Pow2(k)) as real
  {
    if k > 0 {
      ShiftOfInt(m, k - 1);
      assert m * Pow2(k) == 2 * (m * Pow2(k - 1));
    }
  }

  lemma {:induction false} ShiftOfOne(k: nat)
    ensures Shift(1.0, -(k as int)) == 1.0 / Pow2(k) as real
  {
    if k > 0 {
      ShiftOfOne(k - 1);
      HalfGap(Pow2(k - 1));
    }
  }

  lemma HalfGap(w: int)
    requires w >= 1
    ensures 1.0 / (2 * w) as real == (1.0 / w as real) / 2.0
  {
    var u := 1.0 / w as real;
    assert u * w as real == 1.0;
    assert (u / 2.0) * (2 * w) as real == 1.0;
  }

  /** A significand of 2^53 is one of 2^52 with the next exponent. */
  lemma WideSignificand(m: int, e: int)
    requires 0 <= m <= P53 && -1074 <= e <= 970
    ensures IsDouble(Shift(m as real, e))
  {
    if m < P53 {
      assert Significand(m, e);
    } else {
      ShiftAdd(P52 as real, 1, e);
      assert Shift(P52 as real, 1) == m as real;
      assert Significand(P52, e + 1) && Shift(m as real, e) == Shift(P52 as real, e + 1);
    }
  }

  /** Integers up to 2^53 are doubles. */
  lemma SmallIntegersAreDoubles(n: int)
    requires 0 <= n <= P53
    ensures IsDouble(n as real)
  {
    WideSignificand(n, 0);
  }

  // ---- Rounding a quotient up after rounding it to a double ----

  function CeilDiv(a: nat, b: nat): int
    requires b >= 1
  {
    (a + b - 1) / b
  }

  function Ceil(x: real): int { -((-x).Floor) }

  lemma CeilIs(x: real, q: int)
    requires (q - 1) as real < x <= q as real
    ensures Ceil(x) == q
  {
  }

  /** p scaled to a full 53-bit significand. */
  lemma {:induction false} FullSignificand(p: int, n: int, k: nat) returns (m: int, j: nat)
    requires 1 <= p && 1 <= n < P53 && n == p * Pow2(k) && k <= 52 && Pow2(k) <= n
    ensures P52 <= m < P53 && m == p * Pow2(j) && j <= 52
    decreases P53 - n
  {
    if n >= P52 {
      m, j := n, k;
    } else {
      if k == 52 {
        PowFiftyTwo();
      }
      assert p * Pow2(k + 1) == 2 * (p * Pow2(k));
      m, j := FullSignificand(p, 2 * n, k + 1);
    }
  }

  lemma PowFiftyTwo()
    ensures Pow2(52) == P52
  {
    assert Pow2(13) == 8192;
    PowAdd(13, 13);
    PowAdd(26, 26);
  }

  lemma PowThirtyOne()
    ensures Pow2(31) == 0x8000_0000
  {
    assert Pow2(5) == 32;
    assert Pow2(13) == 8192;
    PowAdd(13, 13);
    PowAdd(26, 5);
  }

  /** The gap below the next double above p is less than twice the distance of a / b from p. */
  lemma GapIsSmall(a: int, b: int, p: int, m: int, j: nat)
    requires 1 <= p && 1 <= b && 0 <= a <= P53 && p * b < a && m == p * Pow2(j) && P52 <= m
    ensures b < 2 * Pow2(j)
  {
    assert p * (2 * Pow2(j)) == 2 * m;
    if b >= 2 * Pow2(j) {
      MulMono(p, 2 * Pow2(j), b);
      assert false;
    }
  }

  lemma MulMono(x: int, y: int, z: int)
    requires x >= 0 && y <= z
    ensures x * y <= x * z
  {
  }

  /** A double just above p, nearer to x than p is. */
  lemma NextDouble(a: int, b: int, p: int) returns (y: real)
    requires 0 <= p && 1 <= b < 0x8000_0000 && 0 <= a <= P53 && p * b < a
    ensures IsDouble(y)
    ensures var x := a as real / b as real; p as real < x && Abs(x - y) < x - p as real
  {
    QuotientAbove(a, b, p);
    assert Pow2(0) == 1;
    hide Pow2;
    if p == 0 {
      y := Shift(1.0, -31);
      assert Significand(1, -31) && y == Shift(1 as real, -31);
      PowThirtyOne();
      ShiftOfOne(31);
      SmallerReciprocal(b, Pow2(31));
    } else {
      assert p < P53 by {
        MulMono(p, 1, b);
      }
      var m, j := FullSignificand(p, p, 0);
      GapIsSmall(a, b, p, m, j);
      var e: int := -(j as int);
      y := Shift((m + 1) as real, e);
      WideSignificand(m + 1, e);
      GapInReals(p, m, j);
      SmallerReciprocal(b, 2 * Pow2(j));
      HalfGap(Pow2(j));
    }
  }

  lemma QuotientAbove(a: int, b: int, p: int)
    requires 1 <= b && p * b < a
    ensures a as real / b as real >= p as real + 1.0 / b as real
  {
    var x := a as real / b as real;
    assert x * b as real == a as real;
    assert (p as real + 1.0 / b as real) * b as real == (p * b + 1) as real;
    if x < p as real + 1.0 / b as real {
      assert x * b as real < (p as real + 1.0 / b as real) * b as real;
    }
  }

  lemma SmallerReciprocal(b: int, c: int)
    requires 1 <= b < c
    ensures 1.0 / c as real < 1.0 / b as real
  {
    var u, v := 1.0 / c as real, 1.0 / b as real;
    assert u * c as real == 1.0 && v * b as real == 1.0;
    if u >= v {
      assert u * c as real >= v * c as real;
      assert v * c as real > v * b as real;
    }
  }

  lemma GapInReals(p: int, m: int, j: nat)
    requires m == p * Pow2(j)
    ensures Shift((m + 1) as real, -(j as int)) == p as real + 1.0 / Pow2(j) as real
  {
    var e: int := -(j as int);
    ShiftOfInt(p, j);
    ShiftAdd(p as real, j, e);
    ShiftOfOne(j);
    ShiftLinear((m + 1) as real, m as real, e);
  }

  /** Whatever nearest double the division delivers, rounding it up gives the exact page count. */
  lemma CeilOfNearest(a: nat, b: nat, d: real)
    requires a <= P53 && 1 <= b < 0x8000_0000 && Nearest(a as real / b as real, d)
    ensures Ceil(d) == CeilDiv(a, b)
  {
    var q := CeilDiv(a, b);
    var x := a as real / b as real;
    CeilDivBounds(a, b);
    QuotientBelow(a, b, q);
    SmallIntegersAreDoubles(q);
    assert Abs(x - d) <= Abs(x - q as real);
    assert d <= q as real;
    if a == 0 {
      assert d == 0.0;
    } else {
      var y := NextDouble(a, b, q - 1);
      assert Abs(x - d) <= Abs(x - y);
    }
    CeilIs(d, q);
  }

  lemma CeilDivBounds(a: nat, b: nat)
    requires a <= P53 && b >= 1
    ensures var q := CeilDiv(a, b); 0 <= q <= P53 && a <= q * b && (a > 0 ==> q >= 1 && (q - 1) * b < a) && (a == 0 ==> q == 0)
  {
    var q := CeilDiv(a, b);
    assert q * b == (a + b - 1) - (a + b - 1) % b;
    assert (q - 1) * b == q * b - b;
    if q < 1 {
      MulMono(b, q, 0);
    }
    if q > P53 {
      MulMono(q - 1, 1, b);
    }
    if a == 0 && q > 0 {
      MulMono(b, 1, q);
    }
  }

  lemma QuotientBelow(a: int, b: int, q: int)
    requires 1 <= b && a <= q * b
    ensures a as real / b as real <= q as real
  {
    var x := a as real / b as real;
    assert x * b as real == a as real;
    assert q as real * b as real == (q * b) as real;
    assert x > q as real ==> x * b as real > q as real * b as real;
  }

  // ---- The rounding itself ----

  /** Integer division rounded to the nearest integer, ties to the even one. */
  function RoundedQuotient(n: nat, d: nat): (q: nat)
    requires d >= 1
    ensures q == n / d || q == n / d + 1
    ensures forall z: int :: Distance(n, d, q) <= Distance(n, d, z)
  {
    var r := n % d;
    NearestInteger(n, d);
    if 2 * r < d || (2 * r == d && n / d % 2 == 0) then n / d else n / d + 1
  }

  lemma TiesToEven(n: nat, d: nat)
    requires d >= 1 && 2 * (n % d) == d
    ensures RoundedQuotient(n, d) % 2 == 0
  {
  }

  /** How far z is from n / d, times d. */
  function Distance(n: int, d: int, z: int): int { if n >= z * d then n - z * d else z * d - n }

  lemma DivisionFacts(n: nat, d: nat)
    requires d >= 1
    ensures var q := n / d;
      && Distance(n, d, q) == n % d && Distance(n, d, q + 1) == d - n % d
      && forall z: int :: (z <= q ==> Distance(n, d, z) >= n % d) && (z > q ==> Distance(n, d, z) >= d - n % d)
  {
    var q := n / d;
    assert n == q * d + n % d;
    assert (q + 1) * d == q * d + d;
    forall z: int
      ensures (z <= q ==> Distance(n, d, z) >= n % d) && (z > q ==> Distance(n, d, z) >= d - n % d)
    {
      if z <= q { MulMono(d, z, q); } else { MulMono(d, q + 1, z); }
    }
  }

  /** Of the two integers around a quotient the nearer one is nearest of all. */
  lemma NearestInteger(n: nat, d: nat)
    requires d >= 1
    ensures var q := n / d;
      && (2 * (n % d) <= d ==> forall z: int :: Distance(n, d, q) <= Distance(n, d, z))
      && (2 * (n % d) >= d ==> forall z: int :: Distance(n, d, q + 1) <= Distance(n, d, z))
  {
    DivisionFacts(n, d);
    hide Distance;
  }

  lemma TwiceAsMuch(d: nat, k: nat)
    ensures 2 * d * Pow2(k) == d * Pow2(k + 1)
  {
  }

  /** The power of two by which the denominator (or, in Down, the numerator) must be multiplied
      for the quotient to lie between 2^52 and 2^53. */
  function Up(n: nat, d: nat): (k: nat)
    requires d >= 1
    ensures n >= P52 * d ==> P52 * (d * Pow2(k)) <= n < P53 * (d * Pow2(k))
    decreases n - d
  {
    if n >= P53 * d then
      var k := Up(n, 2 * d);
      TwiceAsMuch(d, k);
      k + 1
    else 0
  }

  function Down(n: nat, d: nat): (k: nat)
    requires 1 <= n < P53 * d
    ensures P52 * d <= n * Pow2(k) < P53 * d
    ensures k > 0 ==> n * Pow2(k - 1) < P52 * d
    decreases P53 * d - n
  {
    if n < P52 * d then
      var k := Down(2 * n, d);
      TwiceAsMuch(n, k);
      if k > 0 then
        TwiceAsMuch(n, k - 1);
        k + 1
      else 1
    else 0
  }

  /** The quotient a / b as the hardware delivers it. */
  function Rounded(a: nat, b: nat): real
    requires b >= 1
  {
    if a == 0 then 0.0
    else if a >= P53 * b then
      var k := Up(a, b);
      Shift(RoundedQuotient(a, b * Pow2(k)) as real, k)
    else
      var k := Down(a, b);
      Shift(RoundedQuotient(a * Pow2(k), b) as real, -(k as int))
  }

  lemma DistanceInReals(n: nat, d: nat, z: int)
    requires d >= 1
    ensures Abs(n as real / d as real - z as real) == Distance(n, d, z) as real / d as real
  {
    var t := n as real / d as real;
    assert t * d as real == n as real;
    assert (z * d) as real == z as real * d as real;
    var w := if n >= z * d then t - z as real else z as real - t;
    assert w * d as real == Distance(n, d, z) as real;
    assert w < 0.0 ==> w * d as real < 0.0;
  }

  lemma SmallerQuotient(i: int, j: int, d: int)
    requires d >= 1 && i <= j
    ensures i as real / d as real <= j as real / d as real
  {
  }

  /** Among the multiples of the unit and everything below 2^52 units, nothing is nearer to n / d
      than the rounded quotient. */
  lemma RoundedIsNearer(n: nat, d: nat, z: real)
    requires d >= 1 && P52 * d <= n
    requires z == z.Floor as real || z <= P52 as real
    ensures var t := n as real / d as real; Abs(t - RoundedQuotient(n, d) as real) <= Abs(t - z)
  {
    var t := n as real / d as real;
    var q := RoundedQuotient(n, d);
    var i := if z <= P52 as real then P52 else z.Floor;
    DistanceInReals(n, d, q);
    DistanceInReals(n, d, i);
    SmallerQuotient(Distance(n, d, q), Distance(n, d, i), d);
    QuotientAtLeast(n, d);
  }

  lemma QuotientAtLeast(n: nat, d: nat)
    requires d >= 1 && P52 * d <= n
    ensures n as real / d as real >= P52 as real
  {
    var t := n as real / d as real;
    assert t * d as real == n as real;
    assert t < P52 as real ==> t * d as real < P52 as real * d as real;
    assert (P52 * d) as real == P52 as real * d as real;
  }

  /** A double in units of 2^e: an integer if its own exponent is at least e, and otherwise below
      2^52 units. */
  lemma DoubleInUnits(m: int, f: int, e: int) returns (z: real)
    requires Significand(m, f)
    ensures Shift(m as real, f) == Shift(z, e)
    ensures z == z.Floor as real || z <= P52 as real
  {
    z := Shift(m as real, f - e);
    ShiftAdd(m as real, f - e, e);
    if f >= e {
      ShiftOfInt(m, f - e);
    } else {
      ShiftMonotone(m as real, P53 as real, f - e);
      ShiftDown(P53 as real, f - e);
    }
  }

  lemma {:induction false} ShiftDown(x: real, e: int)
    requires e < 0 && x >= 0.0
    ensures 0.0 <= Shift(x, e) <= x / 2.0
    decreases -e
  {
    if e < -1 {
      ShiftDown(x, e + 1);
    }
  }

  lemma ShiftedDistance(t: real, q: real, e: int)
    ensures Abs(Shift(t, e) - Shift(q, e)) == Shift(Abs(t - q), e)
  {
    ShiftLinear(t, q, e);
    ShiftAbs(t - q, e);
  }

  lemma ShiftedDistances(t: real, q: real, z: real, e: int)
    requires Abs(t - q) <= Abs(t - z)
    ensures Abs(Shift(t, e) - Shift(q, e)) <= Abs(Shift(t, e) - Shift(z, e))
  {
    var i, j := Abs(t - q), Abs(t - z);
    ShiftMonotone(i, j, e);
    ShiftedDistance(t, q, e);
    ShiftedDistance(t, z, e);
  }

  lemma NormalisedIsNearest(n: nat, d: nat, e: int)
    requires d >= 1 && P52 * d <= n < P53 * d && -1074 <= e <= 970
    ensures Nearest(Shift(n as real / d as real, e), Shift(RoundedQuotient(n, d) as real, e))
  {
    QuotientBound(n, d);
    WideSignificand(RoundedQuotient(n, d), e);
    forall y | IsDouble(y)
      ensures var x := Shift(n as real / d as real, e); Abs(x - Shift(RoundedQuotient(n, d) as real, e)) <= Abs(x - y)
    {
      var m: int, f: int :| Significand(m, f) && y == Shift(m as real, f);
      var z := DoubleInUnits(m, f, e);
      RoundedIsNearer(n, d, z);
      ShiftedDistances(n as real / d as real, RoundedQuotient(n, d) as real, z, e);
    }
  }

  lemma QuotientBound(n: nat, d: nat)
    requires d >= 1 && n < P53 * d
    ensures RoundedQuotient(n, d) <= P53
  {
    if n / d >= P53 {
      MulMono(d, P53, n / d);
    }
  }

  lemma UpIsSmall(n: nat, d: nat)
    requires d >= 1 && P53 * d <= n < 0x1_0000_0000_0000_0000
    ensures Up(n, d) < 13
  {
    var k := Up(n, d);
    if k >= 13 {
      PowAdd(13, k - 13);
      assert Pow2(13) == 8192;
      MulMono(8192, 1, Pow2(k - 13));
      MulMono(Pow2(k), 1, d);
      assert false;
    }
  }

  lemma DownIsSmall(n: nat, d: nat)
    requires 1 <= n < P53 * d && 1 <= d < 0x8000_0000
    ensures Down(n, d) <= 83
  {
    var k := Down(n, d);
    if k > 83 {
      PowAdd(83, k - 84);
      PowAdd(52, 31);
      PowFiftyTwo();
      PowThirtyOne();
      MulMono(Pow2(83), 1, Pow2(k - 84));
      MulMono(Pow2(k - 1), 1, n);
      assert false;
    }
  }

  /** The model of the division is correct rounding: no double is nearer to the exact quotient. */
  lemma RoundedIsNearest(a: nat, b: nat)
    requires a < 0x1_0000_0000_0000_0000 && 1 <= b < 0x8000_0000
    ensures Nearest(a as real / b as real, Rounded(a, b))
  {
    if a == 0 {
      SmallIntegersAreDoubles(0);
    } else if a >= P53 * b {
      BigIsNearest(a, b);
    } else {
      SmallIsNearest(a, b);
    }
  }

  lemma BigIsNearest(a: nat, b: nat)
    requires a < 0x1_0000_0000_0000_0000 && 1 <= b && a >= P53 * b
    ensures Nearest(a as real / b as real, Rounded(a, b))
  {
    var k := Up(a, b);
    UpIsSmall(a, b);
    DivideByPower(a, b, k);
    NormalisedIsNearest(a, b * Pow2(k), k);
  }

  lemma SmallIsNearest(a: nat, b: nat)
    requires 1 <= b < 0x8000_0000 && 1 <= a < P53 * b
    ensures Nearest(a as real / b as real, Rounded(a, b))
  {
    var k := Down(a, b);
    DownIsSmall(a, b);
    MultiplyByPower(a, b, k);
    ShiftAdd(a as real / b as real, k, -(k as int));
    NormalisedIsNearest(a * Pow2(k), b, -(k as int));
  }

  lemma {:induction false} DivideByPower(a: nat, b: nat, k: nat)
    requires b >= 1
    ensures b * Pow2(k) >= 1 && Shift(a as real / (b * Pow2(k)) as real, k) == a as real / b as real
  {
    MulMono(b, 1, Pow2(k));
    if k > 0 {
      var c := b * Pow2(k - 1);
      MulMono(b, 1, Pow2(k - 1));
      assert b * Pow2(k) == 2 * c;
      HalfQuotient(a, c);
      DivideByPower(a, b, k - 1);
      ShiftAdd(a as real / (2 * c) as real, 1, k - 1);
      assert Shift(a as real / (2 * c) as real, 1) == a as real / c as real;
    }
  }

  lemma HalfQuotient(a: int, c: int)
    requires c >= 1
    ensures 2.0 * (a as real / (2 * c) as real) == a as real / c as real
  {
    var u, v := a as real / (2 * c) as real, a as real / c as real;
    assert u * (2 * c) as real == a as real && v * c as real == a as real;
    assert (2.0 * u - v) * c as real == 0.0;
  }

  lemma {:induction false} MultiplyByPower(a: nat, b: nat, k: nat)
    requires b >= 1
    ensures Shift(a as real / b as real, k) == (a * Pow2(k)) as real / b as real
  {
    if k > 0 {
      MultiplyByPower(a, b, k - 1);
      var c := a * Pow2(k - 1);
      assert a * Pow2(k) == 2 * c;
      assert (2 * c) as real / b as real == 2.0 * (c as real / b as real);
    }
  }

  // ---- The page count ----

  /** The count converted to double, as the integer it stands for. */
  function CountAsDouble(count: nat): nat {
    if count < P53 then count
    else
      var k := Up(count, 1);
      RoundedQuotient(count, 1 * Pow2(k)) * Pow2(k)
  }

  lemma CountConversion(count: nat)
    requires count < 0x8000_0000_0000_0000
    ensures CountAsDouble(count) as real == Rounded(count, 1)
    ensures Nearest(count as real, CountAsDouble(count) as real)
    ensures count <= P53 ==> CountAsDouble(count) == count
  {
    RoundedIsNearest(count, 1);
    assert count as real / 1 as real == count as real;
    if count <= P53 {
      SmallIntegersAreDoubles(count);
      assert Rounded(count, 1) == count as real;
    }
    if count >= P53 {
      var k := Up(count, 1);
      ShiftOfInt(RoundedQuotient(count, 1 * Pow2(k)), k);
    }
  }

  /** The expression of the use case. It has no defined result when the page size is zero, where
      the quotient is infinite or not a number, or when the rounded-up quotient does not fit an
      int. */
  function TotalPages(count: nat, pageSize: nat): Option<int> {
    if pageSize == 0 then None
    else
      var pages := Ceil(Rounded(CountAsDouble(count), pageSize));
      if pages < 0x8000_0000 then Some(pages) else None
  }

  /** For every count up to 2^53 and every positive int as page size, going through doubles gives
      the exact number of pages. */
  lemma PageCountExact(count: nat, pageSize: nat)
    requires count <= P53 && 1 <= pageSize < 0x8000_0000
    ensures TotalPages(count, pageSize) ==
      if CeilDiv(count, pageSize) < 0x8000_0000 then Some(CeilDiv(count, pageSize)) else None
  {
    CountConversion(count);
    RoundedIsNearest(count, pageSize);
    CeilOfNearest(count, pageSize, Rounded(count, pageSize));
  }

  /** One more row and the last page is forgotten: 2^53 + 1 rows in pages of 2^30. */
  lemma PageForgotten()
    ensures TotalPages(P53 + 1, 0x4000_0000) == Some(0x80_0000)
    ensures CeilDiv(P53 + 1, 0x4000_0000) == 0x80_0000 + 1
  {
    assert Up(P53 + 1, 1) == 1 by {
      assert Up(P53 + 1, 2) == 0;
    }
    assert Pow2(1) == 2;
    assert CountAsDouble(P53 + 1) == P53;
    RoundedIsNearest(P53, 0x4000_0000);
    CeilOfNearest(P53, 0x4000_0000, Rounded(P53, 0x4000_0000));
  }
}
