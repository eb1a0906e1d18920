/** The number theory of the handshake: binary gcd and the Pollard rho factorisation. */
module Crypto {
  import opened Bytes
  import opened NumberTheory

  /** Random::fast(17, 32) */
  type SmallDraw = x: int | 17 <= x <= 32 witness 17

  const MAX_PQ: nat := 0x8000_0000_0000_0000

  // ---------- greatest common divisor ----------

  /** Stein's algorithm. The final left shift stays within 64 bits because the gcd divides a positive argument. */
  method BinaryGcd(a0: u64, b0: u64) returns (g: u64)
    ensures g == Gcd(a0, b0)
  {
    if a0 == 0 {
      GcdSymmetric(a0, b0);
      return b0;
    }
    if b0 == 0 {
      return a0;
    }
    var a: u64, b: u64, shift: nat := a0, b0, 0;
    while a % 2 == 0 && b % 2 == 0
      invariant a > 0 && b > 0
      invariant a0 == Pow2(shift) * a && b0 == Pow2(shift) * b
      decreases a
    {
      Halve(a0, shift, a);
      Halve(b0, shift, b);
      a := a / 2;
      b := b / 2;
      shift := shift + 1;
    }
    g := OddPhase(a, b);
    GcdScale(Pow2(shift), a, b);
    GcdAtMost(a0, b0);
    g := Pow2(shift) * g;
  }

  /** The subtraction loop, entered once the common factors of two are gone. */
  method OddPhase(a0: u64, b0: u64) returns (g: u64)
    requires a0 > 0 && b0 > 0 && (a0 % 2 == 1 || b0 % 2 == 1)
    ensures g == Gcd(a0, b0)
  {
    hide Gcd;
    var a: u64, b: u64 := a0, b0;
    while true
      invariant a > 0 && b > 0 && (a % 2 == 1 || b % 2 == 1)
      invariant Gcd(a, b) == Gcd(a0, b0)
      decreases a + b
    {
      ghost var a1, b1 := a, b;
      while a % 2 == 0
        invariant 0 < a <= a1 && (a % 2 == 1 || b % 2 == 1)
        invariant Gcd(a, b) == Gcd(a0, b0)
        decreases a
      {
        GcdHalveWhenOtherOdd(a / 2, b);
        a := a / 2;
      }
      while b % 2 == 0
        invariant 0 < b <= b1 && a % 2 == 1
        invariant Gcd(a, b) == Gcd(a0, b0)
        decreases b
      {
        GcdHalveWhenOtherOddRight(a, b / 2);
        b := b / 2;
      }
      if a > b {
        GcdSubtract(a, b);
        a := a - b;
      } else if b > a {
        GcdSubtractRight(a, b);
        b := b - a;
      } else {
        GcdWithSelf(a);
        return a;
      }
    }
  }

  lemma Halve(n: nat, shift: nat, a: nat)
    requires n == Pow2(shift) * a && a % 2 == 0
    ensures n == Pow2(shift + 1) * (a / 2)
  {
    assert Pow2(shift + 1) * (a / 2) == Pow2(shift) * (2 * (a / 2));
  }

  lemma GcdHalveWhenOtherOddRight(a: nat, b: nat)
    requires a % 2 == 1
    ensures Gcd(a, 2 * b) == Gcd(a, b)
  {
    GcdSymmetric(a, 2 * b);
    GcdHalveWhenOtherOdd(b, a);
    GcdSymmetric(a, b);
  }

  lemma GcdSubtractRight(a: nat, b: nat)
    requires b >= a
    ensures Gcd(a, b - a) == Gcd(a, b)
  {
    GcdSymmetric(a, b - a);
    GcdSubtract(b, a);
    GcdSymmetric(a, b);
  }

  lemma GcdWithSelf(a: nat)
    requires a > 0
    ensures Gcd(a, a) == a
  {
    assert Gcd(a, a) == Gcd(a, 0);
  }

  lemma GcdAtMost(a: nat, b: nat)
    requires a > 0 && b > 0
    ensures 0 < Gcd(a, b) <= a && Gcd(a, b) <= b
  {
    GcdIsGreatest(a, b);
    DividesBound(Gcd(a, b), a);
    DividesBound(Gcd(a, b), b);
  }

  // ---------- modular squaring ----------

  /** c + a * b modulo pq by double-and-add. With pq at most 2^63 no addition leaves 64 bits (each sum is a u64). */
  method SquareAdd(pq: u64, q: u64, x: u64) returns (c: u64)
    requires 2 <= pq <= MAX_PQ && q < pq && x < pq
    ensures c == (x * x + q) % pq
  {
    var a: u64, b: u64 := x, x;
    c := q;
    ghost var k: nat := 0;
    while b != 0
      invariant a < pq && c < pq
      invariant x * x + q == c + a * b + pq * k
      decreases b
    {
      ghost var c0, a0, k0 := c, a, k;
      ghost var e1: nat, e2: nat := 0, 0;
      if b % 2 == 1 {
        c := c + a;
        if c >= pq {
          c := c - pq;
          e1 := 1;
        }
      }
      a := a + a;
      if a >= pq {
        a := a - pq;
        e2 := 1;
      }
      k := k0 + e1 + e2 * (b / 2);
      DoubleAndAdd(pq, c0, a0, k0, b, c, a, k, e1, e2);
      b := b / 2;
    }
    ModUnique(x * x + q, pq, k, c);
  }

  lemma DoubleAndAdd(pq: nat, c0: nat, a0: nat, k0: nat, b: nat, c: nat, a: nat, k: nat, e1: nat, e2: nat)
    requires e1 <= 1 && e2 <= 1
    requires c == c0 + (if b % 2 == 1 then a0 else 0) - pq * e1
    requires a == 2 * a0 - pq * e2
    requires k == k0 + e1 + e2 * (b / 2)
    ensures c0 + a0 * b + pq * k0 == c + a * (b / 2) + pq * k
  {
    var h := b / 2;
    assert a0 * b == 2 * (a0 * h) + (if b % 2 == 1 then a0 else 0) by {
      SplitBit(a0, b);
    }
    Expand(a0, pq, e2, h);
    Distribute(pq, k0, e1, e2 * h);
    assert pq * e1 == if e1 == 1 then pq else 0;
  }

  lemma SplitBit(a0: nat, b: nat)
    ensures a0 * b == 2 * (a0 * (b / 2)) + (if b % 2 == 1 then a0 else 0)
  {
    assert b == 2 * (b / 2) + b % 2;
  }

  lemma Expand(a0: int, pq: int, e2: int, h: int)
    ensures (2 * a0 - pq * e2) * h == 2 * (a0 * h) - pq * (e2 * h)
  {
    assert (pq * e2) * h == pq * (e2 * h);
  }

  lemma Distribute(pq: int, x: int, y: int, z: int)
    ensures pq * (x + y + z) == pq * x + pq * y + pq * z
  {
  }

  // ---------- Pollard's rho ----------

  /** The bitwise "and" of two naturals. */
  function And(x: nat, y: nat): nat {
    if x == 0 || y == 0 then 0 else 2 * And(x / 2, y / 2) + (x % 2) * (y % 2)
  }

  ghost predicate IsPow2(j: nat) {
    exists n: nat :: j == Pow2(n)
  }

  /** The iterates of x -> x^2 + q modulo pq. */
  function Iterate(pq: nat, q: nat, x0: nat, j: nat): nat
    requires pq > 0
  {
    if j == 0 then x0 else (Iterate(pq, q, x0, j - 1) * Iterate(pq, q, x0, j - 1) + q) % pq
  }

  /** Index of the iterate held in y while the inner loop is at j. */
  function Mark(j: nat): nat
    requires j >= 1
  {
    if j == 1 then 0 else if And(j - 1, j - 2) == 0 then j - 1 else Mark(j - 1)
  }

  /** The gcd examined at inner step j. */
  function RhoGcd(pq: nat, q: nat, x0: nat, j: nat): nat
    requires pq > 0 && j >= 1
  {
    Gcd((Iterate(pq, q, x0, j) - Iterate(pq, q, x0, Mark(j))) % pq, pq)
  }

  /** The bit trick j & (j - 1) recognises the powers of two. */
  lemma {:induction false} BitTrick(j: nat)
    requires j >= 1
    ensures And(j, j - 1) == 0 <==> IsPow2(j)
  {
    if j == 1 {
      assert j == Pow2(0);
    } else {
      var h := j / 2;
      BitTrick(h);
      if j % 2 == 0 {
        assert (j - 1) / 2 == h - 1 && (j - 1) % 2 == 1;
        assert And(j, j - 1) == 2 * And(h, h - 1);
        if IsPow2(h) {
          var n: nat :| h == Pow2(n);
          assert j == Pow2(n + 1);
        }
        if IsPow2(j) {
          var n: nat :| j == Pow2(n);
          assert h == Pow2(n - 1);
        }
      } else {
        assert (j - 1) / 2 == h;
        AndSelf(h);
      }
    }
  }

  lemma {:induction false} AndSelf(h: nat)
    ensures And(h, h) == h
  {
    if h > 0 {
      AndSelf(h / 2);
      AndSelfStep(h);
    }
  }

  lemma AndSelfStep(h: nat)
    requires h > 0
    ensures And(h, h) == 2 * And(h / 2, h / 2) + h % 2
  {
    BitSquare(h % 2);
  }

  lemma BitSquare(b: nat)
    requires b < 2
    ensures b * b == b
  {
    if b == 0 {
    } else {
      assert b == 1;
    }
  }

  /** From step 2 on, x is compared with the iterate at the largest power of two below j. */
  lemma {:induction false} MarkIsLargestPowerBelow(j: nat)
    requires j >= 2
    ensures IsPow2(Mark(j)) && Mark(j) < j <= 2 * Mark(j)
  {
    BitTrick(j - 1);
    if j == 2 {
      assert And(1, 0) == 0;
    } else if And(j - 1, j - 2) != 0 {
      MarkIsLargestPowerBelow(j - 1);
      var n: nat :| Mark(j - 1) == Pow2(n);
      assert 2 * Mark(j - 1) == Pow2(n + 1);
    }
  }

  /** The inner loop: it stops at the first step whose gcd differs from 1, or runs out after lim - 1 steps. */
  method Trial(pq: u64, q: u64, x0: u64, lim: nat) returns (g: u64, steps: nat)
    requires 2 <= pq <= MAX_PQ && q < pq && x0 < pq && lim >= 2
    ensures 1 <= steps < lim && g == RhoGcd(pq, q, x0, steps)
    ensures forall j :: 1 <= j < steps ==> RhoGcd(pq, q, x0, j) == 1
    ensures g == 1 ==> steps == lim - 1
    ensures 1 <= g <= pq && Divides(g, pq)
  {
    var x: u64, y: u64 := x0, x0;
    hide Gcd, Iterate, Mark, RhoGcd, And;
    IterateStep(pq, q, x0, 0);
    MarkStep(1);
    g := 1;
    steps := 0;
    while steps + 1 < lim
      invariant 0 <= steps < lim
      invariant x < pq && y < pq
      invariant x == Iterate(pq, q, x0, steps)
      invariant y == Iterate(pq, q, x0, Mark(steps + 1))
      invariant forall j :: 1 <= j <= steps ==> RhoGcd(pq, q, x0, j) == 1
      invariant g == 1
      decreases lim - steps
    {
      IterateStep(pq, q, x0, steps);
      steps := steps + 1;
      x := SquareAdd(pq, q, x);
      var z: u64 := if x < y then pq + x - y else x - y;
      g := BinaryGcd(z, pq);
      RhoGcdIs(pq, q, x0, steps, x, y);
      MarkStep(steps);
      RhoGcdDivides(pq, q, x0, steps);
      if g != 1 {
        return;
      }
      if And(steps, steps - 1) == 0 {
        y := x;
      }
    }
    DividesIntro(1, pq, pq);
  }

  lemma ModOfDifference(x: nat, y: nat, pq: nat)
    requires x < pq && y < pq
    ensures (x - y) % pq == if x < y then pq + x - y else x - y
  {
    var q, r := (x - y) / pq, (x - y) % pq;
    assert x - y == pq * q + r && 0 <= r < pq;
    if q > 0 {
      MulGrows(pq, 0, q);
    } else if q < -1 {
      MulGrows(pq, 1, -q);
    }
  }

  lemma IterateStep(pq: nat, q: nat, x0: nat, j: nat)
    requires pq > 0
    ensures Iterate(pq, q, x0, 0) == x0
    ensures Iterate(pq, q, x0, j + 1) == (Iterate(pq, q, x0, j) * Iterate(pq, q, x0, j) + q) % pq
  {
  }

  lemma MarkStep(j: nat)
    requires j >= 1
    ensures Mark(1) == 0
    ensures Mark(j + 1) == if And(j, j - 1) == 0 then j else Mark(j)
  {
  }

  lemma RhoGcdIs(pq: nat, q: nat, x0: nat, j: nat, x: nat, y: nat)
    requires pq > 0 && j >= 1 && x < pq && y < pq
    requires x == Iterate(pq, q, x0, j) && y == Iterate(pq, q, x0, Mark(j))
    ensures RhoGcd(pq, q, x0, j) == Gcd(if x < y then pq + x - y else x - y, pq)
  {
    hide Gcd, Iterate, Mark;
    ModOfDifference(x, y, pq);
  }

  lemma RhoGcdDivides(pq: nat, q: nat, x0: nat, j: nat)
    requires pq > 0 && j >= 1
    ensures 1 <= RhoGcd(pq, q, x0, j) <= pq && Divides(RhoGcd(pq, q, x0, j), pq)
  {
    var z := (Iterate(pq, q, x0, j) - Iterate(pq, q, x0, Mark(j))) % pq;
    GcdIsGreatest(z, pq);
    DividesBound(Gcd(z, pq), pq);
  }

  function Min(x: int, y: int): int { if x > y then y else x }

  /** The C++ expression 1 << (min(5, i) + 18). */
  function Limit(i: nat): (lim: nat)
    ensures 0x4_0000 <= lim <= 0x80_0000
  {
    [0x4_0000, 0x8_0000, 0x10_0000, 0x20_0000, 0x40_0000, 0x80_0000][Min(5, i)]
  }

  /** The gcd met at the given inner step of the given trial. */
  function TrialGcd(pq: u64, smallDraws: nat -> SmallDraw, wideDraws: nat -> u64, trial: nat, step: nat): nat
    requires 2 <= pq && step >= 1
  {
    RhoGcd(pq, smallDraws(trial) % (pq - 1), wideDraws(trial) % (pq - 1) + 1, step)
  }

  /** The inner loop of a trial ends at this step: the first whose gcd is not 1, or the last below the limit. */
  ghost predicate TrialEnds(pq: u64, smallDraws: nat -> SmallDraw, wideDraws: nat -> u64, trial: nat, step: nat)
    requires 2 <= pq
  {
    && 1 <= step < Limit(trial)
    && (forall j :: 1 <= j < step ==> TrialGcd(pq, smallDraws, wideDraws, trial, j) == 1)
    && (TrialGcd(pq, smallDraws, wideDraws, trial, step) == 1 ==> step == Limit(trial) - 1)
  }

  /** The trial ends without a proper factor. */
  ghost predicate TrialFails(pq: u64, smallDraws: nat -> SmallDraw, wideDraws: nat -> u64, trial: nat)
    requires 2 <= pq
  {
    exists step: nat :: TrialEnds(pq, smallDraws, wideDraws, trial, step)
                        && TrialGcd(pq, smallDraws, wideDraws, trial, step) in {1, pq}
  }

  /** Factorisation for arbitrary random draws. The ghost results name the trial and inner step that
      ended the search, and the final value of the step counter. The result is 1 only after three failed trials and a
      thousand steps; a larger result comes from the first trial that did not fail. */
  method PqFactorize(pq: u64, smallDraws: nat -> SmallDraw, wideDraws: nat -> u64)
    returns (p: u64, ghost trial: nat, ghost step: nat, ghost iterations: nat)
    ensures iterations < 0x80_0000 + 1000
    ensures pq < 2 || pq > MAX_PQ ==> p == 1
    ensures 2 <= pq <= MAX_PQ ==>
              && TrialEnds(pq, smallDraws, wideDraws, trial, step)
              && (forall k :: 0 <= k < trial ==> TrialFails(pq, smallDraws, wideDraws, k))
              && (p == 1 ==> trial >= 2 && iterations >= 1000 && TrialFails(pq, smallDraws, wideDraws, trial))
              && var g := TrialGcd(pq, smallDraws, wideDraws, trial, step);
              && 1 <= g <= pq
              && p == Min(g, pq / g)
              && (p > 1 <==> 1 < g < pq)
    ensures 1 <= p && (pq > 0 ==> Divides(p, pq) && p * p <= pq)
  {
    hide RhoGcd, Divides, TrialGcd, TrialEnds, TrialFails;
    trial, step, iterations := 0, 0, 0;
    if pq < 2 || pq > MAX_PQ {
      if pq > 0 {
        DividesIntro(1, pq, pq);
      }
      return 1, 0, 0, 0;
    }
    var g: u64 := 0;
    var i: nat, it: nat := 0, 0;
    while i < 3 || it < 1000
      invariant i <= it
      invariant it == iterations < 0x80_0000 + 1000
      invariant i < 3 ==> it <= i * 0x10_0000
      invariant i == 0 ==> g == 0
      invariant i > 0 ==> trial == i - 1 && step >= 1 && 1 <= g <= pq && Divides(g, pq)
      invariant i > 0 ==> g == TrialGcd(pq, smallDraws, wideDraws, trial, step)
      invariant i > 0 ==> TrialEnds(pq, smallDraws, wideDraws, trial, step)
      invariant forall k :: 0 <= k < i ==> TrialFails(pq, smallDraws, wideDraws, k)
      invariant i > 0 ==> g == 1 || g == pq
      decreases (if i < 3 then 3 - i else 0) + (if it < 1000 then 1000 - it else 0)
    {
      var q: u64 := smallDraws(i) % (pq - 1);
      var x: u64 := wideDraws(i) % (pq - 1) + 1;
      var lim := Limit(i);
      assert lim <= 0x10_0000 || i >= 3;
      var steps: nat;
      g, steps := Trial(pq, q, x, lim);
      it := it + steps;
      trial, step, iterations := i, steps, it;
      TrialOutcome(pq, smallDraws, wideDraws, i, steps, g);
      if g > 1 && g < pq {
        break;
      }
      i := i + 1;
    }
    p := g;
    CofactorBounds(g, pq);
    if g != 0 {
      var other: u64 := pq / g;
      if other < g {
        p := other;
      }
    }
  }

  lemma TrialOutcome(pq: u64, smallDraws: nat -> SmallDraw, wideDraws: nat -> u64, trial: nat, step: nat, g: nat)
    requires 2 <= pq && 1 <= step < Limit(trial)
    requires var q, x := smallDraws(trial) % (pq - 1), wideDraws(trial) % (pq - 1) + 1;
             && g == RhoGcd(pq, q, x, step) && (g == 1 ==> step == Limit(trial) - 1)
             && forall j :: 1 <= j < step ==> RhoGcd(pq, q, x, j) == 1
    ensures g == TrialGcd(pq, smallDraws, wideDraws, trial, step)
    ensures TrialEnds(pq, smallDraws, wideDraws, trial, step)
    ensures g in {1, pq} ==> TrialFails(pq, smallDraws, wideDraws, trial)
  {
    hide RhoGcd;
  }

  lemma CofactorBounds(g: nat, pq: nat)
    requires 1 <= g <= pq && Divides(g, pq)
    ensures 1 <= pq / g <= pq && Divides(pq / g, pq) && g * (pq / g) == pq
    ensures var p := Min(g, pq / g); 1 <= p && Divides(p, pq) && p * p <= pq
    ensures Min(g, pq / g) > 1 <==> 1 < g < pq
  {
    var k: nat :| pq == g * k;
    ModUnique(pq, g, k, 0);
    DividesIntro(k, pq, g);
    assert k * g == g * k;
    DividesBound(k, pq);
    CofactorOne(g, k);
    if g <= k {
      SquareAtMost(g, k);
    } else {
      SquareAtMost(k, g);
    }
  }

  lemma CofactorOne(g: nat, k: nat)
    requires g >= 1
    ensures k == 1 <==> g * k == g
    ensures g == 1 ==> g * k == k
  {
    if k > 1 {
      MulGrows(g, 1, k);
    }
  }

  lemma SquareAtMost(a: nat, b: nat)
    requires a <= b
    ensures a * a <= a * b
  {
  }

  /** A prime is never split: the search then ends without a break and reports 1. */
  lemma PrimeHasNoSmallFactor(p: nat, pq: nat)
    requires Prime(pq) && 1 <= p && Divides(p, pq) && p * p <= pq
    ensures p == 1
  {
    if p == pq {
      MulGrows(p, 1, p);
    }
  }

  // ---------- byte-string interface ----------

  ghost predicate IsMinimalBigEndian(s: seq<byte>, v: nat) {
    FromBigEndian(s) == v && (s != [] ==> s[0] != 0)
  }

  lemma {:induction false} LeadingDigitBound(s: seq<byte>)
    requires s != [] && s[0] != 0
    ensures FromBigEndian(s) > 0
  {
    if |s| > 1 {
      LeadingDigitBound(s[..|s| - 1]);
    }
  }

  /** A number has one big-endian string without leading zeros. */
  lemma {:induction false} MinimalBigEndianUnique(s: seq<byte>, t: seq<byte>, v: nat)
    requires IsMinimalBigEndian(s, v) && IsMinimalBigEndian(t, v)
    ensures s == t
    decreases |s|
  {
    if s == [] || t == [] {
      if s != [] {
        LeadingDigitBound(s);
      }
      if t != [] {
        LeadingDigitBound(t);
      }
    } else {
      var s', t' := s[..|s| - 1], t[..|t| - 1];
      assert v / 256 == FromBigEndian(s') && v / 256 == FromBigEndian(t');
      MinimalBigEndianUnique(s', t', v / 256);
      assert s == s' + [s[|s| - 1]] && t == t' + [t[|t| - 1]];
    }
  }

  /** Strips the trailing zeros of the little-endian bytes and reverses what is left. */
  method AsBigEndianString(from: u64) returns (res: seq<byte>)
    ensures IsMinimalBigEndian(res, from)
  {
    var bytes := U64Bytes(from);
    var i := |bytes|;
    Decode64(from);
    assert bytes[..i] == bytes;
    while i > 0 && bytes[i - 1] == 0
      invariant 0 <= i <= |bytes|
      invariant FromLittleEndian(bytes[..i]) == from
    {
      TrailingZero(bytes[..i]);
      assert bytes[..i][..i - 1] == bytes[..i - 1];
      i := i - 1;
    }
    ReversedIsBigEndian(bytes[..i]);
    res := Reverse(bytes[..i]);
  }

  /** The loop that reads a big-endian string into a 64-bit word; wider numbers lose their high bytes. */
  method ReadBigEndianWord(str: seq<byte>) returns (word: u64)
    ensures word == FromBigEndian(str) % 0x1_0000_0000_0000_0000
  {
    word := 0;
    var i := 0;
    while i < |str|
      invariant 0 <= i <= |str|
      invariant word == FromBigEndian(str[..i]) % 0x1_0000_0000_0000_0000
    {
      AppendByte(str[..i], str[i], word);
      assert str[..i + 1] == str[..i] + [str[i]];
      word := word * 256 % 0x1_0000_0000_0000_0000 + str[i];
      i := i + 1;
    }
    assert str[..i] == str;
  }

  lemma AppendByte(s: seq<byte>, b: byte, word: u64)
    requires word == FromBigEndian(s) % 0x1_0000_0000_0000_0000
    ensures word * 256 % 0x1_0000_0000_0000_0000 + b == FromBigEndian(s + [b]) % 0x1_0000_0000_0000_0000
    ensures word * 256 % 0x1_0000_0000_0000_0000 + b < 0x1_0000_0000_0000_0000
  {
    assert (s + [b])[..|s|] == s;
    assert FromBigEndian(s + [b]) == 256 * FromBigEndian(s) + b;
    ShiftInByte(FromBigEndian(s), b);
  }

  lemma ShiftInByte(x: nat, b: byte)
    ensures x % 0x1_0000_0000_0000_0000 * 256 % 0x1_0000_0000_0000_0000 + b
         == (256 * x + b) % 0x1_0000_0000_0000_0000 < 0x1_0000_0000_0000_0000
  {
    var m := 0x1_0000_0000_0000_0000;
    var k, r := x / m, x % m;
    var j, t := r * 256 / m, r * 256 % m;
    assert x == m * k + r && r * 256 == m * j + t;
    assert t == 256 * (r - 0x100_0000_0000_0000 * j);
    ModUnique(256 * x + b, m, 256 * k + j, t + b);
  }

  /** The strings are minimal and name two factors of pq, the smaller first. */
  ghost predicate NamesFactors(pStr: seq<byte>, qStr: seq<byte>, pq: nat) {
    var p, q := FromBigEndian(pStr), FromBigEndian(qStr);
    && IsMinimalBigEndian(pStr, p) && IsMinimalBigEndian(qStr, q)
    && p * q == pq && 1 <= p && (pq > 0 ==> p <= q)
  }

  /** Splits a big-endian number. The status -1 of the original is unreachable. */
  method PqFactorizeBytes(pqStr: seq<byte>, smallDraws: nat -> SmallDraw, wideDraws: nat -> u64)
    returns (status: int, pStr: seq<byte>, qStr: seq<byte>)
    ensures status == 0
    ensures NamesFactors(pStr, qStr, FromBigEndian(pqStr) % 0x1_0000_0000_0000_0000)
  {
    hide Divides, FromBigEndian;
    var pq := ReadBigEndianWord(pqStr);
    var p, _, _, _ := PqFactorize(pq, smallDraws, wideDraws);
    ExactDivision(pq, p);
    if p == 0 || pq % p != 0 {
      return -1, [], [];
    }
    pStr := AsBigEndianString(p);
    qStr := AsBigEndianString(pq / p);
    status := 0;
  }

  lemma ExactDivision(pq: nat, p: nat)
    requires p >= 1 && (pq > 0 ==> Divides(p, pq) && p * p <= pq)
    ensures pq % p == 0 && p * (pq / p) == pq && pq / p <= pq
    ensures pq > 0 ==> p <= pq / p
  {
    if pq > 0 {
      var k: nat :| pq == p * k;
      ModUnique(pq, p, k, 0);
      if k < p {
        MulGrows(p, k, p);
      }
    } else {
      ModUnique(0, p, 0, 0);
    }
    DivisionShrinks(pq, p);
  }

  lemma DivisionShrinks(n: nat, p: nat)
    requires p >= 1
    ensures n / p <= n
  {
    DivModIdentity(n, p);
    if n / p > n {
      FactorAtMostProduct(p, n / p);
    }
  }

  lemma FactorAtMostProduct(p: nat, q: nat)
    requires p >= 1
    ensures q <= p * q
  {
    MulGrows(q, 0, p);
  }
}
