/** CRC-32 (IEEE Std 802.3, clause 3.2.9), least significant bit first. */
module Crc {
  import opened Bits
  import opened Words

  const POLYNOMIAL := 0xEDB88320
  const ONES := 0xFFFFFFFF
  const RANGE := 0x1_0000_0000

  type Register = v: int | 0 <= v < RANGE

  // ----- exclusive or -----

  function Xor(a: nat, b: nat): (r: nat) {
    XorNat(a, b);
    Bitwise(BXor, a, b)
  }

  lemma {:induction false} XorNat(a: nat, b: nat)
    ensures Bitwise(BXor, a, b) >= 0
    decreases a + b
  {
    if a + b > 0 {
      XorNat(a / 2, b / 2);
      Unfold(BXor, a, b);
    }
  }

  lemma XorHalves(a: nat, b: nat)
    ensures Xor(a, b) / 2 == Xor(a / 2, b / 2)
    ensures Xor(a, b) % 2 == (a + b) % 2
  {
    Halves(BXor, a, b);
  }

  lemma {:induction false} XorZero(a: nat)
    ensures Xor(a, 0) == a && Xor(0, a) == a
  {
    hide Xor;
    if a > 0 {
      XorHalves(a, 0);
      XorHalves(0, a);
      XorZero(a / 2);
    } else {
      XorNone();
    }
  }

  lemma XorNone()
    ensures Xor(0, 0) == 0
  {
  }

  lemma {:induction false} XorSelf(a: nat)
    ensures Xor(a, a) == 0
  {
    hide Xor;
    if a > 0 {
      XorHalves(a, a);
      XorSelf(a / 2);
    } else {
      XorNone();
    }
  }

  lemma XorCommutes(a: nat, b: nat)
    ensures Xor(a, b) == Xor(b, a)
  {
    BitwiseCommutes(BXor, a, b);
  }

  lemma XorAssociates(a: nat, b: nat, c: nat)
    ensures Xor(Xor(a, b), c) == Xor(a, Xor(b, c))
  {
    BitwiseAssociates(BXor, a, b, c);
  }

  /** Applying the same mask twice. */
  lemma XorTwice(a: nat, b: nat)
    ensures Xor(Xor(a, b), b) == a
  {
    hide Xor;
    XorAssociates(a, b, b);
    XorSelf(b);
    XorZero(a);
  }

  lemma XorInjective(a: nat, b: nat, c: nat)
    requires Xor(a, c) == Xor(b, c)
    ensures a == b
  {
    hide Xor;
    XorTwice(a, c);
    XorTwice(b, c);
  }

  /** (a + b) + (c + d) == (a + c) + (b + d), for exclusive or. */
  lemma XorFour(a: nat, b: nat, c: nat, d: nat)
    ensures Xor(Xor(a, b), Xor(c, d)) == Xor(Xor(a, c), Xor(b, d))
  {
    hide Xor;
    XorAssociates(a, b, Xor(c, d));
    XorAssociates(b, c, d);
    XorCommutes(b, c);
    XorAssociates(c, b, d);
    XorAssociates(a, c, Xor(b, d));
  }

  lemma XorBelow(a: nat, b: nat, n: nat)
    requires a < Pow2(n) && b < Pow2(n)
    ensures Xor(a, b) < Pow2(n)
  {
    BitwiseRange(BXor, a, b, n);
  }

  // ----- one bit of division -----

  function Feedback(odd: bool): nat { if odd then POLYNOMIAL else 0 }

  /** The register shifted down one bit, the polynomial taken off if a one went out. */
  function Step(c: nat): nat { Xor(c / 2, Feedback(c % 2 == 1)) }

  function Steps(c: nat, n: nat): nat
    decreases n
  {
    if n == 0 then c else Steps(Step(c), n - 1)
  }

  lemma FeedbackLinear(a: bool, b: bool)
    ensures Xor(Feedback(a), Feedback(b)) == Feedback(a != b)
  {
    hide Xor;
    XorZero(POLYNOMIAL);
    XorSelf(POLYNOMIAL);
    XorZero(0);
  }

  lemma StepLinear(a: nat, b: nat)
    ensures Step(Xor(a, b)) == Xor(Step(a), Step(b))
  {
    hide Xor, Feedback;
    XorHalves(a, b);
    FeedbackLinear(a % 2 == 1, b % 2 == 1);
    XorFour(a / 2, Feedback(a % 2 == 1), b / 2, Feedback(b % 2 == 1));
  }

  lemma {:induction false} StepsLinear(a: nat, b: nat, n: nat)
    ensures Steps(Xor(a, b), n) == Xor(Steps(a, n), Steps(b, n))
    decreases n
  {
    if n > 0 {
      hide Xor, Step;
      StepLinear(a, b);
      StepsLinear(Step(a), Step(b), n - 1);
    }
  }

  lemma StepBelow(c: Register)
    ensures Step(c) < RANGE
  {
    Pow2Of32();
    XorBelow(c / 2, Feedback(c % 2 == 1), 32);
  }

  /** The polynomial has its top bit, so no step loses information. */
  lemma StepInjective(a: Register, b: Register)
    requires Step(a) == Step(b)
    ensures a == b
  {
    hide Xor;
    Pow2Of32();
    if a % 2 == b % 2 {
      XorInjective(a / 2, b / 2, Feedback(a % 2 == 1));
    } else {
      var odd, even := if a % 2 == 1 then a / 2 else b / 2, if a % 2 == 1 then b / 2 else a / 2;
      XorZero(even);
      XorTwice(POLYNOMIAL, odd);
      XorCommutes(POLYNOMIAL, odd);
      XorBelow(even, odd, 31);
    }
  }

  lemma {:induction false} StepsInjective(a: Register, b: Register, n: nat)
    requires Steps(a, n) == Steps(b, n)
    ensures a == b
    decreases n
  {
    if n > 0 {
      hide Step;
      StepBelow(a);
      StepBelow(b);
      StepsInjective(Step(a), Step(b), n - 1);
      StepInjective(a, b);
    }
  }

  // ----- eight bits at once -----

  /** The bits from k on, and the bits below k. */
  function Down(x: nat, k: nat): nat
    decreases k
  {
    if k == 0 then x else Down(x / 2, k - 1)
  }

  function Low(x: nat, k: nat): nat
    decreases k
  {
    if k == 0 then 0 else 2 * Low(x / 2, k - 1) + x % 2
  }

  lemma {:induction false} LowDown(x: nat, k: nat)
    ensures x == Pow2(k) * Down(x, k) + Low(x, k) && Low(x, k) < Pow2(k)
    decreases k
  {
    if k > 0 {
      LowDown(x / 2, k - 1);
      assert 2 * (Pow2(k - 1) * Down(x, k)) == 2 * Pow2(k - 1) * Down(x, k);
    }
  }

  lemma EightBits(x: nat)
    ensures Down(x, 8) == x / 256 && Low(x, 8) == x % 256
  {
    hide Down, Low;
    Pow2Eight(0);
    LowDown(x, 8);
  }

  /** What the low bits feed back, and the rest moved down, do not disturb each other. */
  lemma {:induction false} StepsSplit(x: nat, k: nat)
    ensures Steps(x, k) == Xor(Steps(Low(x, k), k), Down(x, k))
    decreases k
  {
    hide Xor;
    if k == 0 {
      XorZero(x);
    } else {
      var y, f := x / 2, Feedback(x % 2 == 1);
      StepsSplit(y, k - 1);
      StepsLinear(y, f, k - 1);
      StepsLinear(Low(y, k - 1), f, k - 1);
      XorLast(Steps(Low(y, k - 1), k - 1), Down(y, k - 1), Steps(f, k - 1));
    }
  }

  lemma XorLast(a: nat, b: nat, c: nat)
    ensures Xor(Xor(a, b), c) == Xor(Xor(a, c), b)
  {
    hide Xor;
    XorAssociates(a, b, c);
    XorCommutes(b, c);
    XorAssociates(a, c, b);
  }

  lemma Pow2Eight(n: nat)
    ensures Pow2(n + 8) == 256 * Pow2(n) && Pow2(8) == 256
  {
    Pow2Two(n);
    Pow2Two(n + 2);
    Pow2Two(n + 4);
    Pow2Two(n + 6);
  }

  lemma Pow2Two(n: nat)
    ensures Pow2(n + 2) == 4 * Pow2(n)
  {
    assert Pow2(n + 1) == 2 * Pow2(n);
  }

  lemma {:induction false} XorShift(a: nat, b: nat, k: nat)
    ensures Down(Xor(a, b), k) == Xor(Down(a, k), Down(b, k))
    decreases k
  {
    hide Xor;
    if k > 0 {
      XorHalves(a, b);
      XorShift(a / 2, b / 2, k - 1);
    }
  }

  lemma XorHigh(a: nat, b: nat)
    ensures Xor(a, b) / 256 == Xor(a / 256, b / 256)
  {
    hide Xor, Down, Low;
    XorShift(a, b, 8);
    EightBits(a);
    EightBits(b);
    EightBits(Xor(a, b));
  }

  function ByteStep(c: nat, b: Byte): nat { Steps(Xor(c, b), 8) }

  /** A table entry: what a byte feeds back. */
  function Entry(i: nat): nat { Steps(i, 8) }

  /** One step through the table stands for eight divisions. */
  lemma TableStep(c: nat, b: Byte)
    ensures Xor(Entry(Xor(c, b) % 256), c / 256) == ByteStep(c, b)
  {
    hide Xor, Steps, Low, Down;
    EightBits(Xor(c, b));
    StepsSplit(Xor(c, b), 8);
    XorHigh(c, b);
    XorZero(c / 256);
  }

  function Update(c: nat, bs: seq<Byte>): nat
    decreases |bs|
  {
    if bs == [] then c else Update(ByteStep(c, bs[0]), bs[1..])
  }

  function Crc32(bs: seq<Byte>): Register {
    CrcFits(bs);
    Xor(Update(ONES, bs), ONES)
  }

  lemma CrcFits(bs: seq<Byte>)
    ensures Xor(Update(ONES, bs), ONES) < RANGE
  {
    hide Xor, Update;
    UpdateDivides(ONES, bs);
    DivideBelow(ONES, Wire(bs));
    Pow2Of32();
    XorBelow(Update(ONES, bs), ONES, 32);
  }

  // ----- bit by bit -----

  /** Division of a bit stream, one bit at a time. */
  function Divide(c: nat, bits: seq<bool>): nat
    decreases |bits|
  {
    if bits == [] then c else Divide(Step(Xor(c, if bits[0] then 1 else 0)), bits[1..])
  }

  /** The lowest n bits of b, lowest first: the order on the wire. */
  function LowBits(b: nat, n: nat): (bits: seq<bool>)
    ensures |bits| == n
    decreases n
  {
    if n == 0 then [] else [b % 2 == 1] + LowBits(b / 2, n - 1)
  }

  function Wire(bs: seq<Byte>): seq<bool>
    decreases |bs|
  {
    if bs == [] then [] else LowBits(bs[0], 8) + Wire(bs[1..])
  }

  lemma StepLowBit(c: nat, b: nat)
    ensures Step(Xor(c, b)) == Xor(Step(Xor(c, b % 2)), b / 2)
  {
    hide Xor, Feedback;
    XorHalves(c, b);
    XorHalves(c, b % 2);
    XorZero(c / 2);
    XorLast(c / 2, b / 2, Feedback((c + b) % 2 == 1));
  }

  lemma {:induction false} DivideByte(c: nat, b: nat, n: nat)
    requires b < Pow2(n)
    ensures Divide(c, LowBits(b, n)) == Steps(Xor(c, b), n)
    decreases n
  {
    hide Xor, Step;
    if n == 0 {
      XorZero(c);
    } else {
      StepLowBit(c, b);
      var c' := Step(Xor(c, b % 2));
      DivideByte(c', b / 2, n - 1);
      assert LowBits(b, n)[1..] == LowBits(b / 2, n - 1);
    }
  }

  lemma {:induction false} DivideMore(c: nat, a: seq<bool>, b: seq<bool>)
    ensures Divide(c, a + b) == Divide(Divide(c, a), b)
    decreases |a|
  {
    hide Xor, Step;
    if a == [] {
      assert a + b == b;
    } else {
      assert (a + b)[1..] == a[1..] + b;
      DivideMore(Step(Xor(c, if a[0] then 1 else 0)), a[1..], b);
    }
  }

  /** Byte by byte is the same as bit by bit. */
  lemma {:induction false} UpdateDivides(c: nat, bs: seq<Byte>)
    ensures Update(c, bs) == Divide(c, Wire(bs))
    decreases |bs|
  {
    hide Xor, Steps, Divide;
    if bs == [] {
      DivideNone(c);
    } else {
      Pow2Eight(0);
      DivideByte(c, bs[0], 8);
      DivideMore(c, LowBits(bs[0], 8), Wire(bs[1..]));
      UpdateDivides(ByteStep(c, bs[0]), bs[1..]);
    }
  }

  lemma DivideNone(c: nat)
    ensures Divide(c, []) == c
  {
  }

  // ----- error detection -----

  /** Bits as one word, the first bit lowest. */
  function Word(bits: seq<bool>): nat
    decreases |bits|
  {
    if bits == [] then 0 else (if bits[0] then 1 else 0) + 2 * Word(bits[1..])
  }

  lemma {:induction false} WordBits(bits: seq<bool>)
    ensures Word(bits) < Pow2(|bits|) && LowBits(Word(bits), |bits|) == bits
    decreases |bits|
  {
    if bits != [] {
      WordBits(bits[1..]);
      assert Word(bits) / 2 == Word(bits[1..]) && Word(bits) % 2 == if bits[0] then 1 else 0;
      assert bits == [bits[0]] + bits[1..];
    }
  }

  lemma {:induction false} DivideBelow(c: Register, bits: seq<bool>)
    ensures Divide(c, bits) < RANGE
    decreases |bits|
  {
    if bits != [] {
      hide Xor, Step, Pow2;
      BitBelow(c, bits[0]);
      DivideBelow(Step(Xor(c, if bits[0] then 1 else 0)), bits[1..]);
    }
  }

  lemma BitBelow(c: Register, bit: bool)
    ensures Xor(c, if bit then 1 else 0) < RANGE && Step(Xor(c, if bit then 1 else 0)) < RANGE
  {
    hide Xor, Step, Pow2;
    Pow2Of32();
    XorBelow(c, if bit then 1 else 0, 32);
    StepBelow(Xor(c, if bit then 1 else 0));
  }

  /** Different registers stay different over the same bits. */
  lemma {:induction false} DivideInjective(c: Register, d: Register, bits: seq<bool>)
    requires Divide(c, bits) == Divide(d, bits)
    ensures c == d
    decreases |bits|
  {
    if bits != [] {
      hide Xor, Step;
      var b := if bits[0] then 1 else 0;
      BitBelow(c, bits[0]);
      BitBelow(d, bits[0]);
      DivideInjective(Step(Xor(c, b)), Step(Xor(d, b)), bits[1..]);
      StepInjective(Xor(c, b), Xor(d, b));
      XorInjective(c, d, b);
    }
  }

  /** Different words of up to 32 bits lead to different registers. */
  lemma WordDetected(c: Register, a: seq<bool>, b: seq<bool>)
    requires |a| == |b| <= 32 && Divide(c, a) == Divide(c, b)
    ensures a == b
  {
    hide Xor, Steps, Divide, Word;
    WordBits(a);
    WordBits(b);
    DivideByte(c, Word(a), |a|);
    DivideByte(c, Word(b), |b|);
    WordFits(c, a);
    WordFits(c, b);
    StepsInjective(Xor(c, Word(a)), Xor(c, Word(b)), |a|);
    XorCommutes(c, Word(a));
    XorCommutes(c, Word(b));
    XorInjective(Word(a), Word(b), c);
  }

  lemma WordFits(c: Register, a: seq<bool>)
    requires |a| <= 32
    ensures Xor(c, Word(a)) < RANGE
  {
    hide Xor, Word, Pow2;
    WordBits(a);
    Pow2Grows(|a|, 32);
    Pow2Of32();
    XorBelow(c, Word(a), 32);
  }

  /** Streams that differ, and only within 32 places, divide differently. */
  lemma WindowDetected(a: seq<bool>, b: seq<bool>, i: nat)
    requires |a| == |b| && a != b
    requires forall k :: 0 <= k < |a| && (k < i || i + 32 <= k) ==> a[k] == b[k]
    ensures Divide(ONES, a) != Divide(ONES, b)
  {
    hide Divide;
    var j := if i < |a| then i else |a|;
    var e := if j + 32 < |a| then j + 32 else |a|;
    assert a == a[..j] + (a[j..e] + a[e..]) && b == b[..j] + (b[j..e] + b[e..]);
    assert a[..j] == b[..j] && a[e..] == b[e..];
    if Divide(ONES, a) == Divide(ONES, b) {
      var c := Divide(ONES, a[..j]);
      DivideBelow(ONES, a[..j]);
      DivideMore(ONES, a[..j], a[j..e] + a[e..]);
      DivideMore(ONES, b[..j], b[j..e] + b[e..]);
      DivideMore(c, a[j..e], a[e..]);
      DivideMore(c, b[j..e], b[e..]);
      DivideBelow(c, a[j..e]);
      DivideBelow(c, b[j..e]);
      DivideInjective(Divide(c, a[j..e]), Divide(c, b[j..e]), a[e..]);
      WordDetected(c, a[j..e], b[j..e]);
      assert false;
    }
  }

  lemma {:induction false} LowBitsApart(a: nat, b: nat, n: nat)
    requires a < Pow2(n) && b < Pow2(n) && LowBits(a, n) == LowBits(b, n)
    ensures a == b
    decreases n
  {
    if n > 0 {
      assert LowBits(a, n)[1..] == LowBits(a / 2, n - 1) && LowBits(b, n)[1..] == LowBits(b / 2, n - 1);
      assert LowBits(a, n)[0] == (a % 2 == 1) && LowBits(b, n)[0] == (b % 2 == 1);
      LowBitsApart(a / 2, b / 2, n - 1);
    }
  }

  /** The bits of the byte at k are those from 8 k on. */
  lemma {:induction false} WireAt(bs: seq<Byte>, k: nat)
    requires k < |bs|
    ensures |Wire(bs)| == 8 * |bs| && Wire(bs)[8 * k..8 * k + 8] == LowBits(bs[k], 8)
    decreases |bs|
  {
    hide LowBits;
    WireLength(bs);
    WireLength(bs[1..]);
    if k > 0 {
      WireAt(bs[1..], k - 1);
      assert Wire(bs)[8..] == Wire(bs[1..]);
      assert Wire(bs)[8 * k..8 * k + 8] == Wire(bs)[8..][8 * (k - 1)..8 * (k - 1) + 8];
    }
  }

  lemma {:induction false} WireLength(bs: seq<Byte>)
    ensures |Wire(bs)| == 8 * |bs|
    decreases |bs|
  {
    if bs != [] {
      WireLength(bs[1..]);
    }
  }

  lemma WireApart(m: seq<Byte>, n: seq<Byte>)
    requires |m| == |n| && Wire(m) == Wire(n)
    ensures m == n
  {
    hide Wire, LowBits, Pow2;
    Pow2Eight(0);
    forall k | 0 <= k < |m| ensures m[k] == n[k] {
      WireAt(m, k);
      WireAt(n, k);
      LowBitsApart(m[k], n[k], 8);
    }
  }

  /** A change confined to 32 consecutive bits on the wire always changes the CRC,
      wherever the bits lie among the bytes. */
  lemma BurstDetected(m: seq<Byte>, n: seq<Byte>, i: nat)
    requires |m| == |n| && m != n
    requires |Wire(m)| == |Wire(n)|
             && forall k :: 0 <= k < |Wire(m)| && (k < i || i + 32 <= k) ==> Wire(m)[k] == Wire(n)[k]
    ensures Crc32(m) != Crc32(n)
  {
    hide Xor, Update, Wire, Divide;
    if Wire(m) == Wire(n) {
      WireApart(m, n);
      assert false;
    }
    WindowDetected(Wire(m), Wire(n), i);
    UpdateDivides(ONES, m);
    UpdateDivides(ONES, n);
    if Crc32(m) == Crc32(n) {
      XorInjective(Update(ONES, m), Update(ONES, n), ONES);
    }
  }

  /** So does any change to four consecutive bytes. */
  lemma BytesDetected(m: seq<Byte>, n: seq<Byte>, i: nat)
    requires |m| == |n| && m != n
    requires forall k :: 0 <= k < |m| && (k < i || i + 4 <= k) ==> m[k] == n[k]
    ensures Crc32(m) != Crc32(n)
  {
    hide Crc32, Wire, LowBits;
    WireLength(m);
    WireLength(n);
    forall k | 0 <= k < |Wire(m)| && (k < 8 * i || 8 * i + 32 <= k) ensures Wire(m)[k] == Wire(n)[k] {
      var j := k / 8;
      WireAt(m, j);
      WireAt(n, j);
      assert Wire(m)[8 * j..8 * j + 8][k % 8] == Wire(n)[8 * j..8 * j + 8][k % 8];
    }
    BurstDetected(m, n, 8 * i);
  }
}
