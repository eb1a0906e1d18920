/** Divisibility and the greatest common divisor, the reference for the arithmetic in Crypto. */
module NumberTheory {

  ghost predicate Divides(d: nat, n: nat) {
    exists k: nat :: n == d * k
  }

  ghost predicate CommonDivisor(d: nat, a: nat, b: nat) {
    Divides(d, a) && Divides(d, b)
  }

  /** Euclid's algorithm, used as the mathematical reference. */
  function Gcd(a: nat, b: nat): nat
    decreases b
  {
    if b == 0 then a else Gcd(b, a % b)
  }

  ghost predicate Prime(p: nat) {
    p > 1 && forall d: nat :: Divides(d, p) ==> d == 1 || d == p
  }

  function Pow2(n: nat): nat {
    if n == 0 then 1 else 2 * Pow2(n - 1)
  }

  // ---------- divisibility ----------

  lemma DividesIntro(d: nat, n: nat, k: nat)
    requires n == d * k
    ensures Divides(d, n)
  {
  }

  lemma DividesSelfAndZero(n: nat)
    ensures Divides(n, n) && Divides(n, 0)
  {
    DividesIntro(n, n, 1);
    DividesIntro(n, 0, 0);
  }

  lemma DividesBound(d: nat, n: nat)
    requires Divides(d, n) && n > 0
    ensures 0 < d <= n
  {
    var k: nat :| n == d * k;
    if k > 0 && d > 0 {
      assert d * k == d + d * (k - 1);
    }
  }

  lemma DividesLinear(d: nat, a: nat, b: nat, k: nat)
    requires Divides(d, b)
    ensures Divides(d, a) <==> Divides(d, a + b * k)
  {
    var v: nat :| b == d * v;
    MulAssociative(d, v, k);
    if Divides(d, a) {
      var u: nat :| a == d * u;
      Distribute(d, u, v * k);
      DividesIntro(d, a + b * k, u + v * k);
    }
    if Divides(d, a + b * k) {
      var w: nat :| a + b * k == d * w;
      DividesDifference(d, a, v * k, w);
    }
  }

  lemma Distribute(d: nat, x: nat, y: nat)
    ensures d * (x + y) == d * x + d * y
  {
  }

  lemma DividesDifference(d: nat, a: nat, x: nat, w: nat)
    requires a + d * x == d * w
    ensures Divides(d, a)
  {
    if w < x {
      MulGrows(d, w, x);
      DividesSelfAndZero(d);
    } else {
      Distribute(d, x, w - x);
      DividesIntro(d, a, w - x);
    }
  }

  lemma DividesAntisymmetric(a: nat, b: nat)
    requires Divides(a, b) && Divides(b, a)
    ensures a == b
  {
    if a == 0 || b == 0 {
    } else {
      DividesBound(a, b);
      DividesBound(b, a);
    }
  }

  // ---------- the greatest common divisor ----------

  /** Gcd is a common divisor, and every common divisor divides it. */
  lemma {:induction false} GcdIsGreatest(a: nat, b: nat)
    ensures CommonDivisor(Gcd(a, b), a, b)
    ensures forall d: nat :: CommonDivisor(d, a, b) ==> Divides(d, Gcd(a, b))
    decreases b
  {
    if b == 0 {
      DividesSelfAndZero(a);
    } else {
      GcdIsGreatest(b, a % b);
      assert a == a % b + b * (a / b);
      DividesLinear(Gcd(a, b), a % b, b, a / b);
      forall d: nat | CommonDivisor(d, a, b)
        ensures Divides(d, Gcd(a, b))
      {
        DividesLinear(d, a % b, b, a / b);
      }
    }
  }

  /** The defining property determines the value. */
  lemma GcdUnique(g: nat, a: nat, b: nat)
    requires CommonDivisor(g, a, b)
    requires forall d: nat :: CommonDivisor(d, a, b) ==> Divides(d, g)
    ensures g == Gcd(a, b)
  {
    GcdIsGreatest(a, b);
    DividesAntisymmetric(g, Gcd(a, b));
  }

  lemma GcdSymmetric(a: nat, b: nat)
    ensures Gcd(a, b) == Gcd(b, a)
  {
    GcdIsGreatest(a, b);
    GcdUnique(Gcd(a, b), b, a);
  }

  lemma GcdSubtract(a: nat, b: nat)
    requires a >= b
    ensures Gcd(a - b, b) == Gcd(a, b)
  {
    GcdIsGreatest(a, b);
    forall d: nat | Divides(d, b)
      ensures Divides(d, a - b) <==> Divides(d, a)
    {
      DividesLinear(d, a - b, b, 1);
    }
    GcdUnique(Gcd(a, b), a - b, b);
  }

  lemma {:induction false} GcdScale(k: nat, a: nat, b: nat)
    ensures Gcd(k * a, k * b) == k * Gcd(a, b)
    decreases b
  {
    if b == 0 || k == 0 {
      assert k * b == 0;
      if k == 0 { assert k * a == 0; }
    } else {
      GcdScale(k, b, a % b);
      assert k * b > 0;
      ModScale(k, a, b);
    }
  }

  lemma ModScale(k: nat, a: nat, b: nat)
    requires k > 0 && b > 0 && k * b > 0
    ensures (k * a) % (k * b) == k * (a % b)
  {
    var q, r := a / b, a % b;
    assert k * a == (k * b) * q + k * r by {
      assert a == b * q + r;
      assert k * (b * q + r) == (k * b) * q + k * r;
    }
    assert 0 <= k * r < k * b;
    ModUnique(k * a, k * b, q, k * r);
  }

  lemma ModUnique(n: nat, m: nat, q: nat, r: nat)
    requires 0 <= r < m && n == m * q + r
    ensures n % m == r && n / m == q
  {
    var q', r' := n / m, n % m;
    DivModIdentity(n, m);
    if q' > q {
      MulGrows(m, q, q');
    } else if q' < q {
      MulGrows(m, q', q);
    }
  }

  lemma DivModIdentity(n: nat, m: nat)
    requires m > 0
    ensures n == m * (n / m) + n % m
  {
  }

  lemma MulGrows(m: nat, a: nat, b: nat)
    requires a < b
    ensures m * b >= m * a + m
  {
    assert m * b == m * a + m * (b - a);
    assert m * (b - a) == m + m * (b - a - 1);
  }

  lemma GcdHalveWhenOtherOdd(a: nat, b: nat)
    requires b % 2 == 1
    ensures Gcd(2 * a, b) == Gcd(a, b)
  {
    hide Divides;
    GcdIsGreatest(2 * a, b);
    forall d: nat | CommonDivisor(d, 2 * a, b)
      ensures Divides(d, a)
    {
      OddDivisorDividesHalf(d, a, b);
    }
    forall d: nat | CommonDivisor(d, a, b)
      ensures CommonDivisor(d, 2 * a, b)
    {
      DividesDouble(d, a);
    }
    GcdUnique(Gcd(2 * a, b), a, b);
  }

  lemma DividesDouble(d: nat, a: nat)
    requires Divides(d, a)
    ensures Divides(d, 2 * a)
  {
    var k: nat :| a == d * k;
    DividesIntro(d, 2 * a, 2 * k);
  }

  lemma OddDivisorDividesHalf(d: nat, a: nat, b: nat)
    requires b % 2 == 1 && Divides(d, b) && Divides(d, 2 * a)
    ensures Divides(d, a)
  {
    var u: nat :| b == d * u;
    var k: nat :| 2 * a == d * k;
    if d % 2 == 0 {
      EvenTimes(d / 2, u);
      assert false;
    }
    if k % 2 == 1 {
      OddTimesOdd(d / 2, k / 2);
      assert false;
    }
    DoubleOfProduct(d, k / 2);
    DividesIntro(d, a, k / 2);
  }

  lemma EvenTimes(m: nat, u: nat)
    ensures (2 * m * u) % 2 == 0
  {
    MulAssociative(2, m, u);
  }

  lemma OddTimesOdd(m: nat, n: nat)
    ensures ((2 * m + 1) * (2 * n + 1)) % 2 == 1
  {
    var x := (2 * m + 1) * n;
    assert (2 * m + 1) * (2 * n + 1) == 2 * x + (2 * m + 1);
  }

  lemma DoubleOfProduct(d: nat, h: nat)
    ensures d * (2 * h) == 2 * (d * h)
  {
  }

  /** Euclid's lemma, by scaling a gcd. */
  lemma CoprimeFactor(d: nat, a: nat, b: nat)
    requires Gcd(d, a) == 1 && Divides(d, a * b)
    ensures Divides(d, b)
  {
    ScaledGcdIsOne(b, d, a);
    assert b * a == a * b;
    DividesIntro(d, b * d, b);
    CommonDivisorDividesGcd(d, b * d, b * a);
  }

  lemma ScaledGcdIsOne(b: nat, d: nat, a: nat)
    requires Gcd(d, a) == 1
    ensures Gcd(b * d, b * a) == b
  {
    GcdScale(b, d, a);
  }

  lemma CommonDivisorDividesGcd(d: nat, x: nat, y: nat)
    requires CommonDivisor(d, x, y)
    ensures Divides(d, Gcd(x, y))
  {
    GcdIsGreatest(x, y);
  }

  /** A non-trivial divisor of a product of two primes that is at most its cofactor is the smaller prime. */
  lemma SmallerFactorOfSemiprime(p: nat, p1: nat, p2: nat)
    requires Prime(p1) && Prime(p2) && p1 <= p2
    requires p > 1 && Divides(p, p1 * p2) && p * p <= p1 * p2
    ensures p == p1
  {
    GcdIsGreatest(p, p1);
    if Gcd(p, p1) == 1 {
      CoprimeFactor(p, p1, p2);
      assert p == p2;
      if p1 < p2 {
        MulGrows(p2, p1, p2);
      }
    } else {
      var k: nat :| p == p1 * k;
      CofactorIsTrivial(p, k, p1, p2);
    }
  }

  lemma CofactorIsTrivial(p: nat, k: nat, p1: nat, p2: nat)
    requires p1 > 1 && Prime(p2) && p == p1 * k
    requires p > 1 && Divides(p, p1 * p2) && p * p <= p1 * p2
    ensures k == 1
  {
    var m: nat :| p1 * p2 == p * m;
    assert p * m == p1 * (k * m) by {
      MulAssociative(p1, k, m);
    }
    CancelFactor(p1, k * m, p2);
    DividesIntro(k, p2, m);
    if k == p2 {
      MulGrows(p, 1, p);
    }
  }

  lemma MulAssociative(a: nat, b: nat, c: nat)
    ensures (a * b) * c == a * (b * c)
  {
  }

  lemma CancelFactor(c: nat, x: nat, y: nat)
    requires c > 0 && c * x == c * y
    ensures x == y
  {
    if x < y {
      MulGrows(c, x, y);
    } else if y < x {
      MulGrows(c, y, x);
    }
  }
}
