/** Bringing a state into the range 0 to n by shifts and one product. */
module Scaling {
  import opened Arithmetic
  import opened Bits
  import opened Period

  lemma PowerStep(n: nat)
    ensures Pow2(n + 1) == 2 * Pow2(n) && Pow2(0) == 1
  {
  }

  // ----- significant bits -----

  function Significant(k: nat): (s: nat)
    ensures k < Pow2(s) && (s > 0 ==> Pow2(s - 1) <= k)
  {
    if k == 0 then 0 else
      var s := Significant(k / 2);
      assert s > 0 ==> Pow2(s) == 2 * Pow2(s - 1);
      s + 1
  }

  lemma {:induction false} SignificantFits(k: nat, b: nat)
    requires k < Pow2(b)
    ensures Significant(k) <= b
  {
    var s := Significant(k);
    if s > b {
      Pow2Grows(b, s - 1);
    }
  }

  lemma {:induction false} SignificantAbove(k: nat, b: nat)
    requires Pow2(b) <= k
    ensures Significant(k) > b
  {
    if Significant(k) <= b {
      Pow2Grows(Significant(k), b);
    }
  }

  lemma {:induction false} SignificantPower(m: nat)
    ensures Significant(Pow2(m)) == m + 1
  {
    SignificantAbove(Pow2(m), m);
    SignificantFits(Pow2(m), m + 1);
  }

  // ----- the scaled number -----

  /** The shift the generator uses for n; n + 1 is cut to 32 bits. */
  function Shift(n: Long): (s: nat)
    ensures s <= 32 && (n + 1) % M < Pow2(s) && (s > 0 ==> Pow2(s - 1) <= (n + 1) % M)
  {
    Pow2Of32();
    SignificantFits((n + 1) % M, 32);
    Significant((n + 1) % M)
  }

  function NrandOf(n: Long, x: Long): nat {
    var k, s := (n + 1) % M, Shift(n);
    NonNegative(x, Pow2(s));
    NonNegative(x / Pow2(s) * k, Pow2(32 - s));
    x / Pow2(s) * k / Pow2(32 - s)
  }

  /** What the source's comment announces. */
  function Announced(n: Long, x: Long): nat { (n + 1) * x / M }

  lemma NonNegative(n: nat, d: nat)
    requires d > 0
    ensures n / d >= 0
  {
  }

  lemma {:induction false} Pow2Add(a: nat, b: nat)
    ensures Pow2(a + b) == Pow2(a) * Pow2(b)
  {
    if a > 0 {
      Pow2Add(a - 1, b);
      assert 2 * (Pow2(a - 1) * Pow2(b)) == 2 * Pow2(a - 1) * Pow2(b);
    }
  }

  lemma DivBounds(n: nat, d: nat, k: nat)
    requires d > 0
    ensures n < d * k ==> n / d < k
    ensures d * (n / d) <= n
  {
    if n < d * k && n / d >= k {
      MulMono(k, n / d, d);
    }
  }

  /** The product does not overflow, and the quotient stays below n + 1. */
  lemma ScaleFits(ran: Long, n: Long, shift: nat)
    requires shift <= 32 && (n + 1) % M < Pow2(shift) && (shift > 0 ==> Pow2(shift - 1) <= (n + 1) % M)
    ensures var q, k := ran / Pow2(shift), (n + 1) % M;
            && 0 <= q * k < M
            && (n < M / 2 ==> (q * k) / Pow2(32 - shift) <= n)
            && (n >= M / 2 - 1 ==> q * k == 0 && 0 / Pow2(32 - shift) == 0)
  {
    hide Pow2;
    var q, k, p, r := ran / Pow2(shift), (n + 1) % M, Pow2(shift), Pow2(32 - shift);
    Pow2Of32();
    Pow2Add(shift, 32 - shift);
    DivBounds(ran, p, r);
    MulMono(q, r, k);
    if k > 0 {
      LessTimes(q, r, k);
      LessTimes(k, p, r);
      DivBounds(q * k, r, k);
    }
    if n >= M / 2 - 1 {
      ShiftAll(ran, n, shift);
    }
  }

  /** From 2^31 - 1 on, all the bits are shifted out. */
  lemma ShiftAll(ran: Long, n: Long, shift: nat)
    requires n >= M / 2 - 1 && shift <= 32 && (n + 1) % M < Pow2(shift)
    ensures (ran / Pow2(shift)) * ((n + 1) % M) == 0
  {
    hide Pow2;
    Pow2Of32();
    if n < M - 1 {
      if shift < 32 {
        Pow2Grows(shift, 31);
      }
      assert ran / Pow2(shift) == 0;
    }
  }

  lemma LessTimes(a: int, b: int, c: int)
    requires a < b && c > 0
    ensures a * c < b * c
  {
  }

  lemma QuotientParts(v: nat, r: nat, t: int)
    requires r > 0 && t == v / r
    ensures t * r <= v < (t + 1) * r && t >= 0
  {
    assert v == r * t + v % r && (t + 1) * r == t * r + r;
    NonNegative(v, r);
  }

  lemma AtLeast(v: nat, r: nat, y: nat)
    requires r > 0
    ensures v / r >= y <==> v >= y * r
  {
    var t := v / r;
    QuotientParts(v, r, t);
    if t >= y {
      MulMono(y, t, r);
    } else {
      MulMono(t + 1, y, r);
    }
  }

  /** The scaled number reaches y exactly when the state without its low bits would. */
  lemma Reaches(x: nat, p: nat, r: nat, k: nat, y: nat)
    requires p * r == M && p > 0 && r > 0
    ensures x / p * k / r >= y <==> (p * (x / p)) * k >= y * M
  {
    var q := x / p;
    NonNegative(x, p);
    AtLeast(q * k, r, y);
    Regroup(p, q, k);
    Regroup(p, r, y);
    Factor(p, q * k, y * r);
  }

  lemma Swaps(a: int, b: int)
    ensures a * b == b * a
  {
  }

  lemma Regroup(p: int, q: int, k: int)
    ensures (p * q) * k == p * (q * k) == p * (k * q) && k * (p * q) == p * (k * q)
  {
  }

  lemma Factor(p: nat, a: int, b: int)
    requires p > 0
    ensures p * a >= p * b <==> a >= b
  {
    if a >= b {
      MulMono(b - a + (a - b), a - b, p);
      Distribute(p, a, b);
    } else {
      MulAtLeast(p, b - a);
      Distribute(p, a, b);
    }
  }

  lemma ShiftFactors(n: Long)
    ensures Pow2(Shift(n)) * Pow2(32 - Shift(n)) == M
  {
    hide Pow2;
    Pow2Of32();
    Pow2Add(Shift(n), 32 - Shift(n));
  }

  lemma NrandReaches(n: Long, x: Long, y: nat)
    ensures NrandOf(n, x) >= y <==> (Pow2(Shift(n)) * (x / Pow2(Shift(n)))) * ((n + 1) % M) >= y * M
  {
    hide Pow2, Shift;
    ShiftFactors(n);
    Reaches(x, Pow2(Shift(n)), Pow2(32 - Shift(n)), (n + 1) % M, y);
  }

  lemma Cut(x: nat, p: nat)
    requires p > 0
    ensures 0 <= p * (x / p) <= x && (x % p != 0 ==> p * (x / p) < x)
  {
    NonNegative(x, p);
    DivBounds(x, p, 0);
    assert x == p * (x / p) + x % p;
  }

  /** Never more than announced. */
  lemma ScaleBelow(n: Long, x: Long)
    ensures NrandOf(n, x) <= Announced(n, x)
  {
    hide Pow2, Shift, NrandOf;
    var y, p, k := NrandOf(n, x), Pow2(Shift(n)), (n + 1) % M;
    NrandReaches(n, x, y);
    Cut(x, p);
    MulMono(p * (x / p), x, k);
    MulMono(k, n + 1, x);
    AtLeast((n + 1) * x, M, y);
  }

  // ----- when it is what is announced -----

  /** Divisors of powers of two are powers of two. */
  lemma {:induction false} PowerDivisor(k: nat, j: nat, b: nat) returns (m: nat)
    requires k * j == Pow2(b)
    ensures k == Pow2(m)
  {
    if b == 0 {
      m := 0;
      UnitFactor(k, j);
    } else if k % 2 == 0 {
      HalfFactor(k, j);
      var h := PowerDivisor(k / 2, j, b - 1);
      m := h + 1;
    } else {
      EvenFactor(k, j, Pow2(b - 1));
      HalfFactor(j, k);
      m := PowerDivisor(k, j / 2, b - 1);
    }
  }

  lemma UnitFactor(k: nat, j: nat)
    requires k * j == 1
    ensures k == 1
  {
    if k > 1 {
      assert j > 0;
      MulMono(1, j, k);
    }
  }

  lemma HalfFactor(k: nat, j: nat)
    requires k % 2 == 0
    ensures 2 * (k / 2 * j) == k * j == j * k == 2 * (j * (k / 2))
  {
    assert k == 2 * (k / 2);
    assert 2 * (k / 2) * j == 2 * (k / 2 * j);
  }

  lemma EvenFactor(k: nat, j: nat, h: nat)
    requires k % 2 == 1 && k * j == 2 * h
    ensures j % 2 == 0
  {
    OddProduct(k / 2, j / 2);
    assert k == 2 * (k / 2) + 1 && j == 2 * (j / 2) + j % 2;
  }

  lemma OddProduct(a: int, b: int)
    ensures (2 * a + 1) * (2 * b + 1) == 2 * (2 * (a * b) + a + b) + 1
  {
  }

  /** Just above y / (n + 1) of the range, the low bits that are shifted out decide. */
  lemma MissesAt(n: Long, x: Long, y: nat)
    requires x > 0 && x % Pow2(Shift(n)) != 0 && (n + 1) * (x - 1) < y * M <= (n + 1) * x
    ensures NrandOf(n, x) < y <= Announced(n, x)
  {
    hide Pow2, Shift, NrandOf;
    var p, k := Pow2(Shift(n)), (n + 1) % M;
    NrandReaches(n, x, y);
    AtLeast((n + 1) * x, M, y);
    Cut(x, p);
    CutBelow(p * (x / p), x - 1, k, n + 1);
  }

  lemma CutBelow(a: int, b: int, k: int, c: int)
    requires 0 <= a <= b && 0 <= k <= c
    ensures a * k <= c * b
  {
    MulMono(a, b, k);
    MulMono(k, c, b);
  }

  /** The first states at which 1 and n are announced cannot both be multiples of a
      power of two, if n + 1 is not one. */
  lemma MissesOne(n: Long) returns (x: Long)
    requires 0 < n < M / 2 - 1 && M % (n + 1) != 0
    ensures NrandOf(n, x) < Announced(n, x)
  {
    hide Shift, NrandOf, Announced;
    var k, p, s := n + 1, Pow2(Shift(n)), Shift(n);
    var f := M / k;
    assert M == k * f + M % k;
    QuotientFits(k, f, M % k);
    Spread(k, f);
    Pow2Of32();
    Pow2Add(s, 32 - s);
    if (f + 1) % p != 0 {
      x := f + 1;
      MissesAt(n, x, 1);
    } else {
      x := M - f;
      NotBoth(f, p, Pow2(32 - s));
      MissesAt(n, x, n);
    }
  }

  lemma QuotientFits(k: nat, f: int, rest: int)
    requires 2 <= k < M / 2 && M == k * f + rest && 0 < rest < k
    ensures 1 <= f < M - 1
  {
    if f < 1 {
      MulMono(0, -f, k);
    }
    if f >= M - 1 {
      MulMono(M - 1, f, k);
    }
  }

  lemma Spread(k: int, f: int)
    ensures k * (f + 1) == k * f + k && k * (M - f) == k * M - k * f && k * (M - f - 1) == k * M - k * f - k
    ensures (k - 1) * M == k * M - M
  {
  }

  lemma NotBoth(f: nat, p: nat, r: nat)
    requires p * r == M && f < M && p >= 2 && (f + 1) % p == 0
    ensures (M - f) % p != 0
  {
    if (M - f) % p == 0 {
      var a, b := (f + 1) / p, (M - f) / p;
      assert f + 1 == p * a && M - f == p * b;
      assert p * (a + b - r) == p * a + p * b - p * r;
      assert p * (a + b - r) == 1;
      if a + b - r >= 1 {
        MulAtLeast(p, a + b - r);
      } else {
        MulMono(0, r - a - b, p);
      }
    }
  }

  /** For powers of two up to 2^15 both shifts together leave just the high bits. */
  lemma PowerScales(n: Long, x: Long, m: nat)
    requires n + 1 == Pow2(m) && m <= 15
    ensures NrandOf(n, x) == Announced(n, x)
  {
    hide Pow2;
    SmallPowers();
    Pow2Grows(m, 15);
    PowerShift(n, m);
    PowerExact(x, m);
  }

  lemma PowerExact(x: Long, m: nat)
    requires m <= 15
    ensures x / Pow2(m + 1) * Pow2(m) / Pow2(31 - m) == Pow2(m) * x / M
  {
    hide Pow2;
    var a, b, c, d := Pow2(m), Pow2(m + 1), Pow2(31 - 2 * m), Pow2(32 - m);
    Pow2Of32();
    Pow2Add(31 - 2 * m, m);
    Pow2Add(m + 1, 31 - 2 * m);
    Pow2Add(32 - m, m);
    NonNegative(x, b);
    Cancel(x / b, a, c);
    Cancel(x, a, d);
    DivDiv(x, b, c);
    Swaps(a, x);
  }

  lemma Cancel(v: nat, a: nat, c: nat)
    requires a > 0 && c > 0
    ensures v * a / (c * a) == v / c
  {
    var t := v / c;
    QuotientParts(v, c, t);
    AtMostTimes(t * c, v, a);
    LessTimes(v, (t + 1) * c, a);
    assert (c * a) * t == t * c * a && (t + 1) * c * a == (c * a) * t + c * a;
    ModUnique(v * a, c * a, t, v * a - (c * a) * t);
  }

  lemma AtMostTimes(a: int, b: int, c: int)
    requires a <= b && c > 0
    ensures a * c <= b * c
  {
  }

  lemma DivDiv(v: nat, b: nat, c: nat)
    requires b > 0 && c > 0
    ensures v / b / c == v / (b * c)
  {
    var q := v / b;
    QuotientParts(v, b, q);
    var t := q / c;
    QuotientParts(q, c, t);
    AtMostTimes(t * c, q, b);
    AtMostTimes(q + 1, (t + 1) * c, b);
    assert t * c * b == (b * c) * t && (t + 1) * c * b == (b * c) * t + b * c;
    ModUnique(v, b * c, t, v - (b * c) * t);
  }

  /** The first state at which 1 is announced is shifted out whole from 2^16 on. */
  lemma PowerMisses(n: Long, m: nat) returns (x: Long)
    requires n + 1 == Pow2(m) && 16 <= m <= 31
    ensures NrandOf(n, x) < Announced(n, x)
  {
    hide Pow2, Shift, NrandOf, Announced;
    SmallPowers();
    Pow2Grows(32 - m, 16);
    PowerShift(n, m);
    Pow2Add(m, 32 - m);
    Pow2Grows(33 - m, m + 1);
    PowerStep(32 - m);
    x := Pow2(32 - m);
    ShiftedOut(n, x);
  }

  lemma ShiftedOut(n: Long, x: Long)
    requires (n + 1) * x == M && x < Pow2(Shift(n))
    ensures NrandOf(n, x) == 0 < Announced(n, x)
  {
    hide Pow2, Shift, NrandOf;
    DivBounds(x, Pow2(Shift(n)), 1);
    NonNegative(x, Pow2(Shift(n)));
    NrandReaches(n, x, 1);
    AtLeast((n + 1) * x, M, 1);
  }

  lemma SmallPowers()
    ensures Pow2(15) == 32768 && Pow2(16) == 65536 && Pow2(31) == M / 2 && Pow2(32) == M
  {
    Pow2Of32();
    assert Pow2(15) == 32768;
  }

  lemma PowerShift(n: Long, m: nat)
    requires n + 1 == Pow2(m) && m <= 31
    ensures Shift(n) == m + 1
  {
    hide Pow2;
    SmallPowers();
    Pow2Grows(m, 31);
    SignificantPower(m);
  }

  lemma OthersMiss(n: Long) returns (x: Long)
    requires forall m: nat :: m <= 15 ==> n + 1 != Pow2(m)
    ensures NrandOf(n, x) < Announced(n, x)
  {
    hide Pow2, NrandOf, Announced;
    PowerStep(0);
    assert n != 0;
    Pow2Of32();
    if n >= M / 2 - 1 {
      x := M - 1;
      FarMisses(n);
    } else if M % (n + 1) == 0 {
      var m := PowerDivisor(n + 1, M / (n + 1), 32);
      if m > 31 {
        Pow2Grows(32, m);
      }
      x := PowerMisses(n, m);
    } else {
      x := MissesOne(n);
    }
  }

  lemma FarMisses(n: Long)
    requires n >= M / 2 - 1
    ensures NrandOf(n, M - 1) == 0 < Announced(n, M - 1)
  {
    hide Pow2, Shift;
    ShiftAll(M - 1, n, Shift(n));
    MulMono(M / 2, n + 1, M - 1);
    AtLeast((n + 1) * (M - 1), M, 1);
  }

  ghost predicate ShortPower(k: nat) { exists m: nat :: m <= 15 && k == Pow2(m) }

  /** The scaled number is the announced one in every state if and only if n + 1 is
      a power of two below 2^16. */
  lemma ScaleExact(n: Long)
    ensures (forall x: Long :: NrandOf(n, x) == Announced(n, x)) <==> ShortPower(n + 1)
  {
    hide Pow2, NrandOf, Announced;
    if ShortPower(n + 1) {
      var m: nat :| m <= 15 && n + 1 == Pow2(m);
      forall x: Long ensures NrandOf(n, x) == Announced(n, x) {
        PowerScales(n, x, m);
      }
    } else {
      var x := OthersMiss(n);
      assert NrandOf(n, x) != Announced(n, x);
    }
  }

  /** So from any seed, the numbers of a whole period are all as announced, or not. */
  lemma PeriodScale(x0: Long, n: Long)
    ensures (forall i: nat :: i < M ==> NrandOf(n, After(x0, i)) == Announced(n, After(x0, i))) <==> ShortPower(n + 1)
  {
    hide Pow2, NrandOf, Announced, After, ShortPower;
    ScaleExact(n);
    if forall x: Long :: NrandOf(n, x) == Announced(n, x) {
      assert forall i: nat :: NrandOf(n, After(x0, i)) == Announced(n, After(x0, i));
    } else {
      var x: Long :| NrandOf(n, x) != Announced(n, x);
      var i := FullPeriod(x0, x);
      assert NrandOf(n, After(x0, i)) != Announced(n, After(x0, i));
    }
  }

  // ----- the numbers that come up -----

  lemma Unshifted(n: Long, y: nat)
    requires 0 < n < M / 2 - 1
    ensures NrandOf(n, M - 1) >= y <==> (n + 1 - y) * Pow2(32 - Shift(n)) >= n + 1
  {
    hide Pow2, Shift;
    var p, r, k := Pow2(Shift(n)), Pow2(32 - Shift(n)), n + 1;
    ShiftFactors(n);
    AllOnes(p, r);
    NonNegative(M - 1, p);
    AtLeast((r - 1) * k, r, y);
    assert (r - 1) * k == r * k - k && (k - y) * r == k * r - y * r;
  }

  lemma AllOnes(p: nat, r: nat)
    requires p * r == M && p > 0 && r > 0
    ensures (M - 1) / p == r - 1
  {
    assert p * (r - 1) + (p - 1) == M - 1;
    ModUnique(M - 1, p, r - 1, p - 1);
  }

  lemma ScaleMono(n: Long, x: Long)
    ensures NrandOf(n, x) <= NrandOf(n, M - 1)
  {
    hide Pow2, Shift, NrandOf;
    var p, k, y := Pow2(Shift(n)), (n + 1) % M, NrandOf(n, x);
    NrandReaches(n, x, y);
    NrandReaches(n, M - 1, y);
    NonNegative(x, p);
    var a, b := x / p, (M - 1) / p;
    QuotientParts(x, p, a);
    QuotientParts(M - 1, p, b);
    if b < a {
      MulMono(b + 1, a, p);
    }
    MulMono(a, b, p);
    Swaps(a, p);
    Swaps(b, p);
    MulMono(p * a, p * b, k);
  }

  lemma ZeroScale(x: Long)
    ensures NrandOf(0, x) == 0
  {
    ScaleBelow(0, x);
  }

  /** Nothing but 0 comes up exactly for 0, for 2^31 - 1 and for negative n. */
  lemma AlwaysZero(n: Long)
    ensures (forall x: Long :: NrandOf(n, x) == 0) <==> n == 0 || n >= M / 2 - 1
  {
    hide Pow2, NrandOf;
    if n == 0 {
      forall x: Long ensures NrandOf(n, x) == 0 {
        ZeroScale(x);
      }
    } else if n >= M / 2 - 1 {
      forall x: Long ensures NrandOf(n, x) == 0 {
        FarZero(n, x);
      }
    } else {
      Pow2Of32();
      PowerStep(0);
      PowerStep(31 - Shift(n));
      MulMono(2, Pow2(32 - Shift(n)), n);
      Unshifted(n, 1);
      Swaps(n, Pow2(32 - Shift(n)));
    }
  }

  lemma FarZero(n: Long, x: Long)
    requires n >= M / 2 - 1
    ensures NrandOf(n, x) == 0
  {
    hide Pow2, Shift;
    ShiftAll(x, n, Shift(n));
  }

  /** And n itself comes up exactly for n below 65535. */
  lemma TopComesUp(n: Long)
    ensures (exists x: Long :: NrandOf(n, x) == n) <==> n < 65535
  {
    hide Pow2, NrandOf;
    Pow2Of32();
    if n == 0 {
      ZeroScale(0);
    } else if n >= M / 2 - 1 {
      AlwaysZero(n);
    } else {
      TopSize(n);
      Unshifted(n, n);
      ScaleAtMost(n, M - 1);
      forall x: Long ensures NrandOf(n, x) <= NrandOf(n, M - 1) {
        ScaleMono(n, x);
      }
    }
  }

  /** The room above the product, against n. */
  lemma TopSize(n: Long)
    requires n < M / 2 - 1
    ensures Pow2(32 - Shift(n)) >= n + 1 <==> n < 65535
  {
    hide Pow2, Shift;
    Pow2Of32();
    PowerStep(0);
    if Shift(n) > 31 {
      Pow2Grows(31, Shift(n) - 1);
    }
    Room(n + 1, Shift(n));
  }

  lemma Room(k: nat, s: nat)
    requires 0 < s <= 31 && Pow2(s - 1) <= k < Pow2(s)
    ensures Pow2(32 - s) >= k <==> k < 65536
  {
    hide Pow2;
    SmallPowers();
    if s <= 16 {
      Pow2Grows(s, 32 - s);
      Pow2Grows(s, 16);
    } else {
      Pow2Grows(16, s - 1);
      Pow2Grows(32 - s, 15);
    }
  }

  lemma ScaleAtMost(n: Long, x: Long)
    requires n < M / 2
    ensures NrandOf(n, x) <= n
  {
    hide Pow2, Shift;
    ScaleFits(x, n, Shift(n));
  }
}
