/** The pseudo-random number generator of the mathematical library. */
module Rand {
  import opened Arithmetic
  import opened Bits
  import opened Period
  import opened Scaling

  const W := 65536

  type Word = v: int | 0 <= v < W

  // ----- 68000 instructions on unsigned longs -----

  function Low(d: Long): Word { d % W }
  function High(d: Long): Word { d / W }

  function Swap(d: Long): Long { Low(d) * W + High(d) }

  lemma MulWords(a: Word, b: Word)
    ensures 0 <= a * b <= (W - 1) * (W - 1)
  {
    MulMono(a, W - 1, b);
    MulMono(b, W - 1, W - 1);
  }

  /** mulu: the product of the low words. */
  function MulU(d: Long, s: Long): (r: Long)
    ensures r <= (W - 1) * (W - 1)
  {
    MulWords(Low(d), Low(s));
    Low(d) * Low(s)
  }

  /** addw: adds low words, and sets the extend bit. */
  method AddW(d: Long, s: Long) returns (r: Long, x: bool)
    ensures High(r) == High(d) && Low(r) + (if x then W else 0) == Low(d) + Low(s)
  {
    var sum := Low(d) + Low(s);
    r, x := High(d) * W + sum % W, sum >= W;
  }

  /** addxl of zero: adds the extend bit. */
  method AddX(d: Long, x: bool) returns (r: Long, x': bool)
    ensures r + (if x' then M else 0) == d + if x then 1 else 0
  {
    var sum := d + if x then 1 else 0;
    r, x' := sum % M, sum >= M;
  }

  function AddL(d: Long, s: Long): Long { (d + s) % M }
  function ClrW(d: Long): Long { High(d) * W }

  /** A long read as signed. */
  function Signed(d: Long): int { if d < M / 2 then d else d - M }

  // ----- the 32 by 32 bit product -----

  lemma PartialProducts(a: Long, b: Long)
    ensures a * b == Low(a) * Low(b) + W * (High(a) * Low(b)) + W * (Low(a) * High(b)) + M * (High(a) * High(b))
  {
    var ah, al, bh, bl := High(a), Low(a), High(b), Low(b);
    assert a == W * ah + al && b == W * bh + bl;
    assert (W * ah + al) * (W * bh + bl) == al * bl + W * (ah * bl) + W * (al * bh) + M * (ah * bh);
  }

  /** The register part: d6 gets the low, d7 the high half of the unsigned product. */
  method LongProduct(a: Long, b: Long) returns (d6: Long, d7: Long)
    ensures M * d7 + d6 == a * b
  {
    PartialProducts(a, b);
    hide Swap, MulU;
    SwapParts(a);
    SwapParts(b);
    var d3, d4 := a, a;
    d6 := a;
    var d5 := b;
    d7 := b;
    d4 := Swap(d4);
    d5 := Swap(d5);
    MulParts(d7, d6);
    MulParts(d4, d7);
    MulParts(d5, d3);
    MulParts(d5, d4);
    d6 := MulU(d7, d6);
    d7 := MulU(d4, d7);
    d3 := MulU(d5, d3);
    d4 := MulU(d5, d4);
    ProductFits(a, b);
    d6, d7 := AddProducts(d6, d7, d3, d4);
  }

  lemma SwapParts(d: Long)
    ensures Low(Swap(d)) == High(d) && High(Swap(d)) == Low(d) && d == W * High(d) + Low(d)
  {
  }

  lemma MulParts(d: Long, s: Long)
    ensures MulU(d, s) == Low(d) * Low(s)
  {
  }

  lemma ProductFits(a: Long, b: Long)
    ensures 0 <= a * b < M * M
  {
    MulMono(a, M - 1, b);
    MulMono(b, M - 1, M - 1);
  }

  /** Sums the partial products, carries included. */
  method AddProducts(p1: Long, p2: Long, p3: Long, p4: Long) returns (d6: Long, d7: Long)
    requires p1 + W * p2 + W * p3 + M * p4 < M * M && p4 <= (W - 1) * (W - 1)
    ensures M * d7 + d6 == p1 + W * p2 + W * p3 + M * p4
  {
    hide Swap, Low, High, ClrW;
    SwapParts(p2);
    SwapParts(p3);
    var d3, d4 := p3, p4;
    d7 := p2;
    d6, d4 := AddMiddle(p1, p2, p3, p4);
    ClearParts(d7);
    ClearParts(d3);
    d7 := Swap(ClrW(d7));
    d3 := Swap(ClrW(d3));
    d7 := AddL(d7, d3);
    d7 := AddL(d7, d4);
  }

  /** The middle halves, with the carries into the fourth product. */
  method AddMiddle(d6: Long, d7: Long, d3: Long, d4: Long) returns (low: Long, high: Long)
    requires d4 <= (W - 1) * (W - 1)
    ensures M * high + low == d6 + W * Low(d7) + W * Low(d3) + M * d4
  {
    hide Swap, Low, High;
    SwapParts(d6);
    var x;
    low := Swap(d6);
    low, x := AddW(low, d7);
    high, x := AddX(d4, x);
    low, x := AddW(low, d3);
    high, x := AddX(high, x);
    SwapParts(low);
    low := Swap(low);
    SwapParts(low);
  }

  lemma ClearParts(d: Long)
    ensures Swap(ClrW(d)) == High(d)
  {
  }

  /** The high half is then corrected for negative factors. */
  method Lmul(a: Long, b: Long) returns (low: Long, high: Long)
    ensures low == (a * b) % M
    ensures M * Signed(high) + low == Signed(a) * Signed(b)
  {
    low, high := LongProduct(a, b);
    ghost var u := high;
    if b >= M / 2 {
      high := (high - a) % M;
    }
    if a >= M / 2 {
      high := (high - b) % M;
    }
    hide Corrected, Signed;
    LowHalf(a * b, low, u);
    CorrectedMod(a, b, u);
    SignCorrects(a, b, low, u);
    SignFits(a, b);
    HighHalf(Corrected(a, b, u), high, low, Signed(a) * Signed(b));
  }

  lemma CorrectedMod(a: Long, b: Long, u: Long)
    ensures var h := if b >= M / 2 then (u - a) % M else u;
            (if a >= M / 2 then (h - b) % M else h) == Corrected(a, b, u) % M
  {
    var h := if b >= M / 2 then u - a else u;
    var q := h / M;
    assert h == M * q + h % M;
    ModShift(h % M - b, q);
    ModShift(h - b, 1);
  }

  lemma HighHalf(h: int, high: Long, low: Long, p: int)
    requires high == h % M && M * h + low == p && -(M / 2) * (M / 2) <= p <= (M / 2) * (M / 2)
    ensures Signed(high) == h
  {
    assert -(M / 4) - 1 <= h <= M / 4;
  }

  lemma LowHalf(p: int, low: Long, u: int)
    requires p == M * u + low
    ensures p % M == low
  {
  }

  function Corrected(a: Long, b: Long, u: int): int {
    u - (if b >= M / 2 then a else 0) - (if a >= M / 2 then b else 0) + (if a >= M / 2 && b >= M / 2 then M else 0)
  }

  lemma SignCorrects(a: Long, b: Long, low: Long, u: int)
    requires M * u + low == a * b
    ensures M * Corrected(a, b, u) + low == Signed(a) * Signed(b)
  {
    assert (a - M) * b == a * b - M * b && a * (b - M) == a * b - M * a;
    assert (a - M) * (b - M) == a * b - M * a - M * b + M * M;
  }

  lemma SignFits(a: Long, b: Long)
    ensures -(M / 2) * (M / 2) <= Signed(a) * Signed(b) <= (M / 2) * (M / 2)
  {
    var x, y := Signed(a), Signed(b);
    var p, q := if x < 0 then -x else x, if y < 0 then -y else y;
    MulMono(p, M / 2, q);
    MulMono(q, M / 2, M / 2);
    assert x * y == p * q || x * y == -(p * q);
  }

  // ----- steps -----

  lemma StepMod(x: Long)
    ensures ((x * A) % M + C) % M == Next(x)
  {
    ModShift((x * A) % M + C, (x * A) / M);
  }

  /** The first three states from the initial one. */
  lemma FirstStates()
    ensures After(1, 1) == 4239898166 && After(1, 2) == 46314279 && After(1, 3) == 3872451236
  {
    assert Next(1) == 4239898166 && Next(4239898166) == 46314279 && Next(46314279) == 3872451236;
    assert After(1, 0) == 1;
  }

  // ----- the generator -----

  class Generator {
    var random: Long

    constructor ()
      ensures random == 1
    {
      random := 1;
    }

    /** __rand */
    method Step() returns (r: Long)
      modifies this
      ensures r == random == Next(old(random))
    {
      var high;
      random, high := Lmul(random, A);
      StepMod(old(random));
      random := (random + C) % M;
      r := random;
    }

    method Rand() returns (r: nat)
      modifies this
      ensures random == Next(old(random)) && r == random / 2 && r < M / 2
    {
      var dummy := Step();
      r := dummy / 2;
    }

    /** The seed is a 16-bit int, sign-extended. */
    method Srand(seed: int) returns (r: nat)
      requires -32768 <= seed < 32768
      modifies this
      ensures random == Next(seed % M) && r == random / 2
    {
      random := seed % M;
      r := Rand();
    }

    /** Any number of calls: the k-th number is half the state k steps on. */
    method Draw(n: nat) returns (rs: seq<nat>)
      modifies this
      ensures random == After(old(random), n) && |rs| == n
      ensures forall k :: 0 <= k < n ==> rs[k] == After(old(random), k + 1) / 2
    {
      hide Next;
      rs := [];
      while |rs| < n
        invariant |rs| <= n && random == After(old(random), |rs|)
        invariant forall k :: 0 <= k < |rs| ==> rs[k] == After(old(random), k + 1) / 2
      {
        var r := Rand();
        rs := rs + [r];
      }
    }

    method Nrand(n: Long) returns (r: Long)
      modifies this
      ensures random == Next(old(random)) && r == NrandOf(n, random)
      ensures r <= Announced(n, random) && (n < M / 2 ==> r <= n)
    {
      hide Next;
      var shift := SetRange(n);
      r := Scale(n, shift);
      ScaleBelow(n, random);
    }

    /** __setrng: counts the significant bits of n + 1. */
    method SetRange(n: Long) returns (shift: nat)
      ensures shift == Shift(n)
    {
      shift := 0;
      var v: Long := (n + 1) % M;
      while v > 0
        invariant Significant((n + 1) % M) == shift + Significant(v)
        decreases v
      {
        v := v / 2;
        shift := shift + 1;
      }
    }

    /** __nrand */
    method Scale(n: Long, shift: nat) returns (r: Long)
      requires shift == Shift(n)
      modifies this
      ensures random == Next(old(random)) && r == NrandOf(n, random) && (n < M / 2 ==> r <= n)
    {
      hide Next, Pow2, Shift;
      var ran := Step();
      ScaleFits(ran, n, shift);
      ran := ran / Pow2(shift);
      ran := (ran * ((n + 1) % M)) % M;
      r := ran / Pow2(32 - shift);
    }
  }
}
