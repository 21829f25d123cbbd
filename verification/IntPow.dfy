/** Integer powers in one machine word, and greatest common divisors. */
module IntPow {

  const WORD: int := 0x1_0000_0000_0000_0000
  const MAX: int := 0x7FFF_FFFF_FFFF_FFFF
  const MIN: int := -0x8000_0000_0000_0000

  /** Int. */
  predicate Fits(x: int) { MIN <= x <= MAX }

  /** What a multiplication leaves in a word. */
  function Wrapped(x: int): (z: int)
    ensures Fits(z) && (z - x) % WORD == 0
    ensures Fits(x) ==> z == x
  {
    var m := x % WORD;
    if m > MAX then m - WORD else m
  }

  /** Division as C does it, towards zero. */
  function Quot(a: int, b: int): (q: int)
    requires b != 0
  {
    if a >= 0 then (if b > 0 then a / b else -(a / -b)) else (if b > 0 then -(-a / b) else -a / -b)
  }

  /** mul_overflow, of the wrapped product z of i1 and i2. */
  predicate MulOverflow(z: int, i1: int, i2: int) {
    (i1 == MIN && i2 == -1) || (i2 != 0 && Quot(z, i2) != i1)
  }

  function Abs(x: int): nat { if x < 0 then -x else x }

  lemma QuotExact(a: int, b: int)
    requires b != 0
    ensures Quot(a * b, b) == a
  {
    if a >= 0 && b > 0 { DivExact(a, b); }
    if a >= 0 && b < 0 { DivExact(a, -b); Negate(a, b); }
    if a < 0 && b > 0 { DivExact(-a, b); Negate(b, a); }
    if a < 0 && b < 0 { DivExact(-a, -b); NegateBoth(a, b); }
  }

  lemma DivExact(a: nat, b: nat)
    requires b > 0
    ensures a * b / b == a && a * b >= 0
  {
    var q := a * b / b;
    assert q * b <= a * b < q * b + b;
    OneQuotient(a, q, b);
  }

  lemma OneQuotient(a: int, q: int, b: int)
    requires b > 0 && q * b <= a * b < q * b + b
    ensures a == q
  {
    Differences(a, q, b);
    if a < q { TimesMore(q - a, b); }
    if a > q { TimesMore(a - q, b); }
  }

  lemma Differences(a: int, q: int, b: int)
    ensures (q - a) * b == q * b - a * b && (a - q) * b == a * b - q * b
  {
  }

  lemma TimesMore(n: int, b: int)
    requires n >= 1 && b >= 0
    ensures n * b >= b
  {
  }

  lemma Negate(a: int, b: int)
    ensures a * b == -(a * -b) && a * b == -(-b * a)
  {
  }

  lemma NegateBoth(a: int, b: int)
    ensures a * b == -a * -b
  {
  }

  lemma QuotNear(a: int, b: int)
    requires b != 0
    ensures Abs(a - Quot(a, b) * b) < Abs(b)
  {
  }

  /** The test is exact: no product that fits is taken to overflow, and no other passes. */
  lemma MulOverflowExact(i1: int, i2: int)
    requires Fits(i1) && Fits(i2)
    ensures MulOverflow(Wrapped(i1 * i2), i1, i2) <==> !Fits(i1 * i2)
  {
    var z := Wrapped(i1 * i2);
    if i2 != 0 {
      if Fits(i1 * i2) {
        QuotExact(i1, i2);
      } else {
        QuotNear(z, i2);
        FarApart(z, i1 * i2);
      }
    }
  }

  lemma FarApart(z: int, x: int)
    requires (z - x) % WORD == 0 && z != x
    ensures Abs(z - x) >= WORD
  {
    var k := (z - x) / WORD;
    assert z - x == k * WORD;
  }

  // ---------------------------------------------------------------- powers

  function Pow(x: int, n: nat): int {
    if n == 0 then 1 else x * Pow(x, n - 1)
  }

  lemma {:induction false} PowSquare(x: int, n: nat)
    ensures Pow(x, 2 * n) == Pow(x * x, n)
  {
    if n > 0 {
      PowSquare(x, n - 1);
      assert Pow(x, 2 * n) == x * Pow(x, 2 * n - 1) == x * (x * Pow(x, 2 * (n - 1)));
      Regroup(x, x, Pow(x, 2 * (n - 1)));
    }
  }

  lemma Regroup(a: int, b: int, c: int)
    ensures a * (b * c) == a * b * c && a * b * c == b * a * c
  {
  }

  /** One bit of the exponent. */
  lemma PowHalf(x: int, p: nat)
    ensures Pow(x, p) == (if p % 2 == 1 then x else 1) * Pow(x * x, p / 2)
  {
    PowSquare(x, p / 2);
    if p % 2 == 1 { assert Pow(x, p) == x * Pow(x, p - 1) && p - 1 == 2 * (p / 2); }
  }

  lemma {:induction false} PowGrows(y: int, n: nat)
    requires y >= 1
    ensures Pow(y, n) >= 1 && (n > 0 ==> Pow(y, n) >= y)
  {
    if n > 0 {
      PowGrows(y, n - 1);
      TimesMore(Pow(y, n - 1), y);
    }
  }

  lemma SquarePositive(x: int)
    requires x != 0
    ensures x * x >= 1
  {
    if x > 0 { TimesMore(x, x); } else { NegateBoth(x, x); TimesMore(-x, -x); }
  }

  /** A word's square is never the one value over MAX whose negative fits. */
  lemma NoSquare(x: int)
    ensures x * x != -MIN
  {
    var n := Abs(x);
    NegateBoth(x, x);
    assert x * x == n * n;
    if n <= 3037000499 { Squares(n, 3037000499); } else { Squares(3037000500, n); }
  }

  lemma Squares(a: nat, b: nat)
    requires a <= b
    ensures a * a <= b * b
  {
  }

  lemma TooLarge(a: int, q: int)
    requires !Fits(a) && q >= 1
    ensures !Fits(a * q)
  {
    if a > MAX { Larger(a, q); } else { Larger(-a, q); Negate(q, a); }
  }

  lemma Larger(a: int, q: int)
    requires a >= 0 && q >= 1
    ensures a * q >= a
  {
  }

  lemma TooLargeSquare(r: int, s: int)
    requires r != 0 && s > -MIN
    ensures !Fits(r * s)
  {
    if r > 0 { Larger(s, r); } else { Larger(s, -r); Negate(r, s); }
  }

  /** ipow: the power if it fits, and 0 if it does not; for negative exponents what the code does. */
  method Ipow(x0: int, p0: int) returns (r: int)
    requires Fits(x0) && Fits(p0)
    ensures Fits(r)
    ensures p0 >= 0 && x0 != 0 ==> r == if Fits(Pow(x0, p0)) then Pow(x0, p0) else 0
    ensures p0 >= 0 && x0 == 0 ==> r == if p0 == 0 then 1 else 0
    ensures p0 < 0 ==> r == if p0 % 2 == 1 then x0 else 1
  {
    var x, p := x0, p0;
    if p == 0 { return 1; }
    if x == 0 && p > 0 { return 0; }
    if p < 0 { return if Wrapped(-p) % 2 != 0 then x else 1; }
    r := 1;
    while true
      invariant p >= 1 && x != 0 && r != 0 && Fits(x) && Fits(r)
      invariant r * Pow(x, p) == Pow(x0, p0)
      decreases p
    {
      PowHalf(x, p);
      SquarePositive(x);
      PowGrows(x * x, p / 2);
      ghost var q, half := Pow(x * x, p / 2), r * (if p % 2 == 1 then x else 1);
      Regroup(r, if p % 2 == 1 then x else 1, q);
      assert half * q == Pow(x0, p0);
      if p % 2 == 1 {
        MulOverflowExact(r, x);
        if MulOverflow(Wrapped(r * x), r, x) {
          TooLarge(r * x, q);
          return 0;
        }
        NotZero(r, x);
        r := Wrapped(r * x);
      }
      p := p / 2;
      if p == 0 { return; }
      MulOverflowExact(x, x);
      if MulOverflow(Wrapped(x * x), x, x) {
        NoSquare(x);
        TooLargeSquare(r, q);
        return 0;
      }
      x := Wrapped(x * x);
    }
  }

  lemma NotZero(a: int, b: int)
    requires a != 0 && b != 0
    ensures a * b != 0
  {
  }

  /** A word, a bignum, or the domain error of a negative exponent. */
  datatype Number = Small(v: int) | Big(v: int) | NotLessThanZero

  /** p_exp on two words; what Yap_gmp_exp_int_int gives is the power. */
  method Exp(i1: int, i2: int) returns (r: Number)
    requires Fits(i1) && Fits(i2)
    ensures i2 < 0 ==> r == NotLessThanZero
    ensures i2 >= 0 ==> r == if Fits(Pow(i1, i2)) then Small(Pow(i1, i2)) else Big(Pow(i1, i2))
  {
    if i2 < 0 { return NotLessThanZero; }
    var pow := Ipow(i1, i2);
    if i1 != 0 { PowNotZero(i1, i2); } else { ZeroPow(i2); }
    if i1 != 0 && pow == 0 {
      return Big(Pow(i1, i2));
    }
    return Small(pow);
  }

  lemma {:induction false} PowNotZero(x: int, n: nat)
    requires x != 0
    ensures Pow(x, n) != 0
  {
    if n > 0 {
      PowNotZero(x, n - 1);
      NotZero(x, Pow(x, n - 1));
    }
  }

  lemma ZeroPow(n: nat)
    ensures Pow(0, n) == if n == 0 then 1 else 0
  {
  }

  // ---------------------------------------------------------------- greatest common divisors

  predicate Divides(d: int, n: int) {
    d != 0 && n % d == 0
  }

  /** gcd is the common divisor that all others divide; both zero give zero, and -MIN cannot be had. */
  method Gcd(a: int, b: int) returns (r: int)
    requires Fits(a) && Fits(b)
    ensures a < 0 || b < 0 ==> r == 1
    ensures a >= 0 && b >= 0 ==> 0 <= r && (r == 0 <==> a == 0 && b == 0)
    ensures a >= 0 && b >= 0 && r > 0 ==> Divides(r, a) && Divides(r, b)
    ensures a >= 0 && b >= 0 ==> forall d: int {:trigger Divides(d, r)} :: Divides(d, a) && Divides(d, b) ==>
      Divides(d, r)
  {
    var m11, m21 := a, b;
    while m11 > 0 && m21 > 0
      invariant a < 0 || b < 0 ==> m11 == a && m21 == b
      invariant a >= 0 && b >= 0 ==> m11 >= 0 && m21 >= 0 && (m11 == 0 && m21 == 0 <==> a == 0 && b == 0)
      invariant a >= 0 && b >= 0 ==>
        forall d: int {:trigger Divides(d, a)} {:trigger Divides(d, m11)} :: Divides(d, a) && Divides(d, b) <==>
            Divides(d, m11) && Divides(d, m21)
      decreases m11 + m21
    {
      if m11 < m21 {
        var k := m21 / m11;
        SameDivisors(m11, m21, k);
        Shrinks(m21, m11);
        m21 := m21 - k * m11;
      } else {
        var k := m11 / m21;
        SameDivisors(m21, m11, k);
        Shrinks(m11, m21);
        m11 := m11 - k * m21;
      }
    }
    if m11 < 0 || m21 < 0 { return 1; }
    r := if m11 != 0 then m11 else m21;
    if r > 0 { assert Divides(r, m11) && Divides(r, m21); }
  }

  lemma Shrinks(n: int, m: int)
    requires 0 < m <= n
    ensures 0 <= n - n / m * m < m
  {
  }

  lemma SameDivisors(m: int, n: int, k: int)
    ensures forall d: int {:trigger Divides(d, n)} {:trigger Divides(d, n - k * m)} ::
      Divides(d, m) ==> (Divides(d, n) <==> Divides(d, n - k * m))
  {
    forall d: int | Divides(d, m)
      ensures Divides(d, n) <==> Divides(d, n - k * m)
    {
      Multiple(d, m, n, k);
    }
  }

  lemma Multiple(d: int, m: int, n: int, k: int)
    requires d != 0 && m % d == 0
    ensures n % d == 0 <==> (n - k * m) % d == 0
  {
    var q := m / d;
    assert m == q * d;
    Regroup(k, q, d);
    ModShift(n, k * q, d);
  }

  lemma ModShift(n: int, t: int, d: int)
    requires d != 0
    ensures n % d == 0 <==> (n - t * d) % d == 0
  {
    if n % d == 0 {
      var p := n / d;
      assert n == p * d;
      Differences(t, p, d);
      TimesMod(p - t, d);
    }
    if (n - t * d) % d == 0 {
      var p := (n - t * d) / d;
      assert n - t * d == p * d;
      Sums(p, t, d);
      TimesMod(p + t, d);
    }
  }

  lemma Sums(p: int, t: int, d: int)
    ensures (p + t) * d == p * d + t * d
  {
  }

  lemma TimesMod(p: int, d: int)
    requires d != 0
    ensures p * d % d == 0
  {
    var r := p * d % d;
    var q := p * d / d;
    assert p * d == q * d + r && 0 <= r < Abs(d);
    Differences(q, p, d);
    if p - q != 0 {
      if d > 0 { SmallMultiple(p - q, d, r); } else { NegateBoth(p - q, d); SmallMultiple(q - p, -d, r); }
    }
  }

  lemma SmallMultiple(k: int, d: int, r: int)
    requires d > 0 && k * d == r && 0 <= r < d
    ensures r == 0
  {
    if k >= 1 { TimesMore(k, d); }
    if k <= -1 { TimesMore(-k, d); Negate(d, k); }
  }
}
