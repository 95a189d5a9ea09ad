/** Why a linear congruential generator modulo 2^32 runs through every state. */
module Period {
  import opened Arithmetic
  import opened Bits

  const A := 3332264781
  const C := 907633385
  const M := 0x1_0000_0000

  type Long = v: int | 0 <= v < M

  /** The generator: one step, and n steps. */
  function Next(x: Long): Long { (A * x + C) % M }

  function After(x: Long, n: nat): Long {
    if n == 0 then x else Next(After(x, n - 1))
  }

  /** 1 + A + ... + A^(n-1) */
  function Sum(n: nat): nat {
    if n == 0 then 0 else A * Sum(n - 1) + 1
  }

  function Power(n: nat): nat {
    if n == 0 then 1 else A * Power(n - 1)
  }

  lemma SumStep(x: int, s: int, k: int)
    requires k == (A - 1) * x + C
    ensures A * (x + s * k) + C == x + (A * s + 1) * k
  {
  }

  lemma NextMod(y: int)
    ensures (A * (y % M) + C) % M == (A * y + C) % M
  {
    var q := y / M;
    var z := A * (y % M) + C;
    assert A * y + C == z + M * (A * q);
    ModShift(z, A * q);
  }

  lemma ModShift(z: int, q: int)
    ensures (z + M * q) % M == z % M
  {
  }

  /** n steps move x by a multiple of an odd number that depends on x only. */
  lemma {:induction false} AfterSum(x: Long, n: nat)
    ensures After(x, n) == (x + Sum(n) * ((A - 1) * x + C)) % M
  {
    if n > 0 {
      AfterSum(x, n - 1);
      var k := (A - 1) * x + C;
      var y := x + Sum(n - 1) * k;
      SumStep(x, Sum(n - 1), k);
      NextMod(y);
    }
  }

  /** n is a multiple of 2^k. */
  predicate TwoPower(k: nat, n: int) {
    k == 0 || (n % 2 == 0 && TwoPower(k - 1, n / 2))
  }

  lemma {:induction false} TwoPowerMod(k: nat, n: int)
    ensures TwoPower(k, n) <==> n % Pow2(k) == 0
  {
    if k > 0 {
      TwoPowerMod(k - 1, n / 2);
      var p, h := Pow2(k - 1), n / 2;
      assert n == 2 * h + n % 2;
      DoubleMod(h, n % 2, p);
    }
  }

  lemma DoubleMod(h: int, b: int, p: int)
    requires p > 0 && 0 <= b < 2
    ensures (2 * h + b) % (2 * p) == 0 <==> b == 0 && h % p == 0
  {
    var q, r := h / p, h % p;
    assert 2 * h + b == (2 * p) * q + (2 * r + b);
    ModUnique(2 * h + b, 2 * p, q, 2 * r + b);
  }

  /** Odd factors do not matter. */
  lemma {:induction false} OddFactor(k: nat, s: int, q: int)
    requires q % 2 == 1
    ensures TwoPower(k, s * q) <==> TwoPower(k, s)
  {
    if k > 0 {
      var h := s / 2;
      OddFactor(k - 1, h, q);
      var j := q / 2;
      if s % 2 == 0 {
        assert s * q == 2 * (h * q);
      } else {
        assert s * q == 2 * (h * q + j) + 1 by {
          assert s == 2 * h + 1 && q == 2 * j + 1;
          assert (2 * h + 1) * q == 2 * (h * q) + q;
        }
      }
    }
  }

  lemma SumNext(n: nat)
    ensures Sum(n) == if n == 0 then 0 else A * Sum(n - 1) + 1
  {
  }

  lemma OddStep(s: int)
    ensures (A * s + 1) % 2 == (s + 1) % 2
  {
    assert A * s + 1 == 2 * (1666132390 * s) + (s + 1);
  }

  lemma {:induction false} SumParity(n: nat)
    ensures Sum(n) % 2 == n % 2
  {
    hide Sum;
    SumNext(n);
    if n > 0 {
      SumParity(n - 1);
      OddStep(Sum(n - 1));
    }
  }

  lemma {:induction false} PowerMod4(n: nat)
    ensures Power(n) % 4 == 1
  {
    if n > 0 {
      PowerMod4(n - 1);
    }
  }

  lemma {:induction false} SumSplit(a: nat, b: nat)
    ensures Sum(a + b) == Sum(a) + Power(a) * Sum(b)
  {
    if a > 0 {
      SumSplit(a - 1, b);
      assert A * (Power(a - 1) * Sum(b)) == A * Power(a - 1) * Sum(b);
    }
  }

  lemma HalfSum(p: int, s: int, q: int)
    requires p == 2 * q - 1
    ensures s + p * s == 2 * (s * q)
  {
  }

  /** Sum(n) holds the same power of two as n. */
  lemma {:induction false} SumTwoPower(k: nat, n: nat)
    ensures TwoPower(k, Sum(n)) <==> TwoPower(k, n)
  {
    hide Sum, Power;
    SumParity(n);
    if k > 0 && n % 2 == 0 {
      var h := n / 2;
      SumSplit(h, h);
      PowerMod4(h);
      var q := (1 + Power(h)) / 2;
      HalfSum(Power(h), Sum(h), q);
      OddFactor(k - 1, Sum(h), q);
      SumTwoPower(k - 1, h);
    }
  }

  lemma Odd(j: int)
    ensures (2 * j + 1) % 2 == 1
  {
  }

  lemma OddStride(x: int)
    ensures ((A - 1) * x + C) % 2 == 1
  {
    var j := 1666132390 * x + 453816692;
    assert (A - 1) * x + C == 2 * j + 1;
    Odd(j);
  }

  lemma BackAgain(x: Long, d: int)
    ensures (x + d) % M == x <==> d % M == 0
  {
  }

  /** The period: a state comes back after exactly the multiples of 2^32 steps. */
  lemma PeriodExact(x: Long, n: nat)
    ensures After(x, n) == x <==> n % M == 0
  {
    var k := (A - 1) * x + C;
    var d := Sum(n) * k;
    AfterSum(x, n);
    hide Sum, After, TwoPower, Pow2;
    OddStride(x);
    BackAgain(x, d);
    Pow2Of32();
    TwoPowerMod(32, d);
    OddFactor(32, Sum(n), k);
    SumTwoPower(32, n);
    TwoPowerMod(32, n);
  }

  lemma {:induction false} AfterAdd(x: Long, i: nat, j: nat)
    ensures After(x, i + j) == After(After(x, i), j)
  {
    if j > 0 {
      AfterAdd(x, i, j - 1);
    }
  }

  lemma Distinct(x: Long, i: nat, j: nat)
    requires i < j < M
    ensures After(x, i) != After(x, j)
  {
    AfterAdd(x, i, j - i);
    PeriodExact(After(x, i), j - i);
  }

  /** The first n states. */
  ghost function States(x: Long, n: nat): set<int> {
    if n == 0 then {} else States(x, n - 1) + {After(x, n - 1)}
  }

  ghost predicate Reached(x: Long, n: nat, y: int) { exists i: nat :: i < n && After(x, i) == y }

  lemma {:induction false} StatesAre(x: Long, n: nat, y: int)
    ensures y in States(x, n) <==> Reached(x, n, y)
  {
    if n > 0 {
      hide After;
      StatesAre(x, n - 1, y);
      assert Reached(x, n, y) <==> Reached(x, n - 1, y) || After(x, n - 1) == y by {
        if After(x, n - 1) == y {
          assert Reached(x, n, y);
        }
      }
    }
  }

  lemma {:induction false} StatesCount(x: Long, n: nat)
    requires n <= M
    ensures |States(x, n)| == n
  {
    if n > 0 {
      hide After;
      StatesCount(x, n - 1);
      StatesAre(x, n - 1, After(x, n - 1));
      forall i: nat | i < n - 1 ensures After(x, i) != After(x, n - 1) {
        Distinct(x, i, n - 1);
      }
    }
  }

  ghost function Below(n: nat): set<int> {
    if n == 0 then {} else Below(n - 1) + {n - 1}
  }

  lemma {:induction false} BelowIs(n: nat)
    ensures |Below(n)| == n && forall i :: i in Below(n) <==> 0 <= i < n
  {
    if n > 0 {
      BelowIs(n - 1);
    }
  }

  lemma SameSize(a: set<int>, b: set<int>)
    requires a <= b && |a| == |b|
    ensures a == b
  {
    assert b == a + (b - a);
    assert |b - a| == 0;
  }

  lemma AllReached(x: Long, y: Long)
    ensures Reached(x, M, y)
  {
    hide After, States, Below, Reached;
    StatesCount(x, M);
    BelowIs(M);
    forall z | z in States(x, M) ensures z in Below(M) {
      StatesAre(x, M, z);
      ReachedLong(x, M, z);
    }
    SameSize(States(x, M), Below(M));
    StatesAre(x, M, y);
  }

  lemma ReachedLong(x: Long, n: nat, z: int)
    requires Reached(x, n, z)
    ensures 0 <= z < M
  {
  }

  /** Full period: from any state, every state comes up within 2^32 steps, and only once. */
  lemma FullPeriod(x: Long, y: Long) returns (n: nat)
    ensures n < M && After(x, n) == y
    ensures forall i: nat :: i < M && After(x, i) == y ==> i == n
  {
    hide After;
    AllReached(x, y);
    n :| n < M && After(x, n) == y;
    forall i: nat | i < M && After(x, i) == y ensures i == n {
      if i < n {
        Distinct(x, i, n);
      } else if n < i {
        Distinct(x, n, i);
      }
    }
  }

  /** Dropping the low bit, as rand does: each value comes up twice in a period. */
  lemma TwiceEach(x: Long, v: nat) returns (a: nat, b: nat)
    requires v < M / 2
    ensures a < M && b < M && a != b
    ensures forall i: nat :: i < M ==> (After(x, i) / 2 == v <==> i == a || i == b)
  {
    hide After;
    a := FullPeriod(x, 2 * v);
    b := FullPeriod(x, 2 * v + 1);
    forall i: nat | i < M && After(x, i) / 2 == v ensures i == a || i == b {
      assert After(x, i) == 2 * v || After(x, i) == 2 * v + 1;
    }
  }
}
