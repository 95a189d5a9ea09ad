/** Bitwise operators on integers in two's complement of any width. */
module Bits {
  import opened Arithmetic

  datatype BitOp = BAnd | BOr | BXor

  /** One bit; bits are 0 and 1. */
  function Bit(op: BitOp, a: int, b: int): (r: int)
    ensures r == 0 || r == 1
  {
    match op
    case BAnd => if a == 1 && b == 1 then 1 else 0
    case BOr => if a == 1 || b == 1 then 1 else 0
    case BXor => if a != b then 1 else 0
  }

  /** All bits alike: 0 or -1. */
  predicate Flat(x: int) { x == 0 || x == -1 }

  function Bitwise(op: BitOp, x: int, y: int): int
    decreases Abs(x) + Abs(y)
  {
    if Flat(x) && Flat(y) then -Bit(op, -x, -y)
    else 2 * Bitwise(op, x / 2, y / 2) + Bit(op, x % 2, y % 2)
  }

  lemma Unfold(op: BitOp, x: int, y: int)
    ensures Bitwise(op, x, y) == 2 * Bitwise(op, x / 2, y / 2) + Bit(op, x % 2, y % 2)
  {
    if Flat(x) && Flat(y) {
      assert x / 2 == x && y / 2 == y;
      assert x % 2 == -x && y % 2 == -y;
    }
  }

  lemma Halves(op: BitOp, x: int, y: int)
    ensures Bitwise(op, x, y) / 2 == Bitwise(op, x / 2, y / 2)
    ensures Bitwise(op, x, y) % 2 == Bit(op, x % 2, y % 2)
  {
    Unfold(op, x, y);
  }

  lemma {:induction false} BitwiseCommutes(op: BitOp, x: int, y: int)
    ensures Bitwise(op, x, y) == Bitwise(op, y, x)
    decreases Abs(x) + Abs(y)
  {
    if !(Flat(x) && Flat(y)) {
      BitwiseCommutes(op, x / 2, y / 2);
    }
  }

  lemma FlatAssociates(op: BitOp, x: int, y: int, z: int)
    requires Flat(x) && Flat(y) && Flat(z)
    ensures Bitwise(op, Bitwise(op, x, y), z) == Bitwise(op, x, Bitwise(op, y, z))
  {
  }

  lemma {:induction false} BitwiseAssociates(op: BitOp, x: int, y: int, z: int)
    ensures Bitwise(op, Bitwise(op, x, y), z) == Bitwise(op, x, Bitwise(op, y, z))
    decreases Abs(x) + Abs(y) + Abs(z)
  {
    hide Bitwise;
    if Flat(x) && Flat(y) && Flat(z) {
      FlatAssociates(op, x, y, z);
    } else {
      BitwiseAssociates(op, x / 2, y / 2, z / 2);
      Halves(op, x, y);
      Halves(op, y, z);
      Unfold(op, Bitwise(op, x, y), z);
      Unfold(op, x, Bitwise(op, y, z));
    }
  }

  /** Bit k of x, in two's complement. */
  function BitOf(x: int, k: nat): int
    decreases k
  {
    if k == 0 then x % 2 else BitOf(x / 2, k - 1)
  }

  lemma {:induction false} BitwiseBit(op: BitOp, x: int, y: int, k: nat)
    ensures BitOf(Bitwise(op, x, y), k) == Bit(op, BitOf(x, k), BitOf(y, k))
    decreases k
  {
    hide Bitwise;
    Halves(op, x, y);
    if k > 0 {
      BitwiseBit(op, x / 2, y / 2, k - 1);
    }
  }

  lemma {:induction false} BitOfRange(x: int, k: nat)
    ensures BitOf(x, k) == 0 || BitOf(x, k) == 1
    decreases k
  {
    if k > 0 {
      BitOfRange(x / 2, k - 1);
    }
  }

  /** And, or and exclusive or, bit by bit. */
  lemma BitwiseMeaning(x: int, y: int, k: nat)
    ensures BitOf(Bitwise(BAnd, x, y), k) == 1 <==> BitOf(x, k) == 1 && BitOf(y, k) == 1
    ensures BitOf(Bitwise(BOr, x, y), k) == 1 <==> BitOf(x, k) == 1 || BitOf(y, k) == 1
    ensures BitOf(Bitwise(BXor, x, y), k) == 1 <==> BitOf(x, k) != BitOf(y, k)
  {
    hide Bitwise, BitOf;
    BitOfRange(x, k);
    BitOfRange(y, k);
    BitwiseBit(BAnd, x, y, k);
    BitwiseBit(BOr, x, y, k);
    BitwiseBit(BXor, x, y, k);
  }

  /** Integers with the same bits are the same. */
  lemma {:induction false} SameBits(x: int, y: int)
    requires forall k: nat :: BitOf(x, k) == BitOf(y, k)
    ensures x == y
    decreases Abs(x) + Abs(y)
  {
    assert BitOf(x, 0) == BitOf(y, 0);
    if !(Flat(x) && Flat(y)) {
      forall k: nat ensures BitOf(x / 2, k) == BitOf(y / 2, k) {
        BitOfNext(x, k);
        BitOfNext(y, k);
      }
      SameBits(x / 2, y / 2);
    }
  }

  lemma BitOfNext(x: int, k: nat)
    ensures var m := k + 1; BitOf(x, m) == BitOf(x / 2, k)
  {
  }

  function Pow2(n: nat): (p: nat)
    ensures p > 0
  {
    if n == 0 then 1 else 2 * Pow2(n - 1)
  }

  lemma {:induction false} Pow2Grows(a: nat, b: nat)
    requires a <= b
    ensures Pow2(a) <= Pow2(b)
    decreases b
  {
    if a < b {
      Pow2Grows(a, b - 1);
    }
  }

  lemma Pow2Of32()
    ensures Pow2(31) == 0x8000_0000 && Pow2(32) == 0x1_0000_0000
  {
    assert Pow2(11) == 2048;
    assert Pow2(16) == 32 * Pow2(11);
    assert Pow2(21) == 32 * Pow2(16);
    assert Pow2(26) == 32 * Pow2(21);
    assert Pow2(31) == 32 * Pow2(26);
  }

  /** Words of n + 1 bits stay words. */
  lemma {:induction false} BitwiseRange(op: BitOp, x: int, y: int, n: nat)
    requires 0 - Pow2(n) <= x < Pow2(n) && 0 - Pow2(n) <= y < Pow2(n)
    ensures 0 - Pow2(n) <= Bitwise(op, x, y) < Pow2(n)
    decreases n
  {
    if n > 0 {
      BitwiseRange(op, x / 2, y / 2, n - 1);
      Unfold(op, x, y);
    }
  }
}
