/** The check value of the CRC: that of the nine characters 123456789. */
module CrcCheck {
  import opened Hexadecimal
  import opened Bits
  import opened Crc
  import opened Words

  // ----- registers in digits -----

  /** Bit k, the lowest being 0, of eight digits. */
  function BitIn(ds: seq<Hex>, k: nat): bool
    requires |ds| == 8 && k < 32
  {
    Hexadecimal.Bit(ds[7 - k / 4], 3 - k % 4)
  }

  /** The number that digits are, the highest first. */
  function Number(ds: seq<Hex>): nat {
    if ds == [] then 0 else 16 * Number(ds[..|ds| - 1]) + Value(ds[|ds| - 1])
  }

  function One(b: bool): nat { if b then 1 else 0 }

  function Value(h: Hex): nat { 8 * One(h.a) + 4 * One(h.b) + 2 * One(h.c) + One(h.d) }

  lemma DoubleBit(m: nat, b: bool, k: nat)
    ensures BitOf(2 * m + One(b), k) == if k == 0 then One(b) else BitOf(m, k - 1)
  {
    assert (2 * m + One(b)) / 2 == m && (2 * m + One(b)) % 2 == One(b);
  }

  lemma DigitBit(m: nat, h: Hex, k: nat)
    ensures BitOf(16 * m + Value(h), k) == if k < 4 then One(Hexadecimal.Bit(h, 3 - k)) else BitOf(m, k - 4)
  {
    hide BitOf;
    DoubleBit(2 * (2 * (2 * m + One(h.a)) + One(h.b)) + One(h.c), h.d, k);
    if k > 0 { DoubleBit(2 * (2 * m + One(h.a)) + One(h.b), h.c, k - 1); }
    if k > 1 { DoubleBit(2 * m + One(h.a), h.b, k - 2); }
    if k > 2 { DoubleBit(m, h.a, k - 3); }
  }

  lemma {:induction false} NumberBits(ds: seq<Hex>, k: nat)
    ensures BitOf(Number(ds), k)
         == if k < 4 * |ds| then One(Hexadecimal.Bit(ds[|ds| - 1 - k / 4], 3 - k % 4)) else 0
    decreases |ds|
  {
    hide BitOf;
    if ds == [] {
      ZeroBit(k);
    } else {
      var most := ds[..|ds| - 1];
      DigitBit(Number(most), ds[|ds| - 1], k);
      if k >= 4 {
        NumberBits(most, k - 4);
      }
    }
  }

  lemma {:induction false} ZeroBit(k: nat)
    ensures BitOf(0, k) == 0
    decreases k
  {
    if k > 0 {
      ZeroBit(k - 1);
    }
  }

  lemma NumberBit(ds: seq<Hex>, k: nat)
    requires |ds| == 8
    ensures BitOf(Number(ds), k) == if k < 32 && BitIn(ds, k) then 1 else 0
  {
    hide BitOf, Number;
    NumberBits(ds, k);
  }

  /** A number with the bits of eight digits is what they are. */
  lemma IsNumber(n: nat, ds: seq<Hex>)
    requires |ds| == 8 && forall k: nat :: BitOf(n, k) == if k < 32 && BitIn(ds, k) then 1 else 0
    ensures n == Number(ds)
  {
    hide BitIn, BitOf, Number;
    forall k: nat ensures BitOf(n, k) == BitOf(Number(ds), k) {
      NumberBit(ds, k);
    }
    SameBits(n, Number(ds));
  }

  // ----- the polynomial -----

  const POLY: seq<Hex> := [HE, HD, HB, H8, H8, H3, H2, H0]

  lemma PolyNumber()
    ensures |POLY| == 8 && POLYNOMIAL == Number(POLY)
  {
    var p7, p6, p5, p4 := POLY[..7], POLY[..6], POLY[..5], POLY[..4];
    assert p7[..6] == p6 && p6[..5] == p5 && p5[..4] == p4 && p4[..3] == [HE, HD, HB];
    assert [HE, HD, HB][..2] == [HE, HD] && [HE, HD][..1] == [HE] && [HE][..0] == [];
    assert Number([HE]) == 0xE && Number([HE, HD]) == 0xED && Number([HE, HD, HB]) == 0xEDB;
    assert Number(p4) == 0xEDB8 && Number(p5) == 0xEDB88 && Number(p6) == 0xEDB883 && Number(p7) == 0xEDB8832;
  }

  /** x^32 + x^26 + x^23 + x^22 + x^16 + x^12 + x^11 + x^10 + x^8 + x^7 + x^5 + x^4 + x^2 + x + 1. */
  predicate Coefficient(e: nat) {
    e == 26 || e == 23 || e == 22 || e == 16 || e == 12 || e == 11 || e == 10 || e == 8 || e == 7 || e == 5
    || e == 4 || e == 2 || e == 1 || e == 0
  }

  /** The bits of the register stand for the powers from x^31, lowest, to 1. */
  lemma PolynomialBits(k: nat)
    requires k < 32
    ensures BitOf(POLYNOMIAL, k) == if Coefficient(31 - k) then 1 else 0
  {
    hide BitOf, Number;
    PolyNumber();
    NumberBit(POLY, k);
    PolyDigits(7 - k / 4, 3 - k % 4);
  }

  lemma PolyDigits(i: nat, q: nat)
    requires i < 8 && q < 4
    ensures Hexadecimal.Bit(POLY[i], q) <==> Coefficient(4 * i + q)
  {
  }

  // ----- a step in digits -----

  /** One digit of the register, shifted by a bit and against the polynomial's digit if odd. */
  function Shifted(before: Hex, h: Hex, poly: Hex, odd: bool): Hex {
    Hex(before.d != (odd && poly.a), h.a != (odd && poly.b), h.b != (odd && poly.c), h.c != (odd && poly.d))
  }

  /** Eight digits, and what one step makes of them. */
  predicate Stepped(ds: seq<Hex>, ns: seq<Hex>) {
    && |ds| == |ns| == 8
    && ns[0] == Shifted(H0, ds[0], HE, ds[7].d) && ns[1] == Shifted(ds[0], ds[1], HD, ds[7].d)
    && ns[2] == Shifted(ds[1], ds[2], HB, ds[7].d) && ns[3] == Shifted(ds[2], ds[3], H8, ds[7].d)
    && ns[4] == Shifted(ds[3], ds[4], H8, ds[7].d) && ns[5] == Shifted(ds[4], ds[5], H3, ds[7].d)
    && ns[6] == Shifted(ds[5], ds[6], H2, ds[7].d) && ns[7] == Shifted(ds[6], ds[7], H0, ds[7].d)
  }

  lemma SteppedAt(ds: seq<Hex>, ns: seq<Hex>, i: nat)
    requires Stepped(ds, ns) && i < 8
    ensures |ds| == |ns| == 8 && ns[i] == Shifted(if i == 0 then H0 else ds[i - 1], ds[i], POLY[i], ds[7].d)
  {
    hide Shifted;
  }

  lemma SteppedBit(ds: seq<Hex>, ns: seq<Hex>, k: nat)
    requires Stepped(ds, ns) && k < 32
    ensures |ds| == |ns| == 8
    ensures var m := k + 1;
            BitIn(ns, k) == ((m < 32 && BitIn(ds, m)) != (BitIn(ds, 0) && BitIn(POLY, k)))
  {
    hide Stepped, POLY;
    var i, q := 7 - k / 4, 3 - k % 4;
    SteppedAt(ds, ns, i);
    assert q > 0 ==> (k + 1) / 4 == k / 4 && (k + 1) % 4 == k % 4 + 1;
    assert q == 0 ==> (k + 1) / 4 == k / 4 + 1 && (k + 1) % 4 == 0;
  }

  lemma StepIs(ds: seq<Hex>, ns: seq<Hex>)
    requires Stepped(ds, ns) && |ds| == |ns| == 8
    ensures Step(Number(ds)) == Number(ns)
  {
    hide Stepped, BitIn, BitOf, Number, Bitwise, POLY;
    var c := Number(ds);
    forall k: nat ensures BitOf(Step(c), k) == if k < 32 && BitIn(ns, k) then 1 else 0 {
      NumberBit(ds, k + 1);
      NumberBit(ds, 0);
      StepBit(c, k);
      PolyNumber();
      NumberBit(POLY, k);
      if k < 32 {
        SteppedBit(ds, ns, k);
      }
    }
    IsNumber(Step(c), ns);
  }

  lemma StepBit(c: nat, k: nat)
    ensures var m := k + 1;
            BitOf(Step(c), k) == if (BitOf(c, m) == 1) != (BitOf(c, 0) == 1 && BitOf(POLYNOMIAL, k) == 1) then 1 else 0
  {
    hide Bitwise;
    var f := Feedback(c % 2 == 1);
    BitwiseBit(BXor, c / 2, f, k);
    BitOfRange(c / 2, k);
    BitOfRange(POLYNOMIAL, k);
    BitOfNext(c, k);
    ZeroBit(k);
    assert BitOf(c, 0) == c % 2;
  }

  // ----- differences in digits -----

  function Differ(h: Hex, x: Hex): Hex { Hex(h.a != x.a, h.b != x.b, h.c != x.c, h.d != x.d) }

  predicate Against(ds: seq<Hex>, es: seq<Hex>, ns: seq<Hex>) {
    && |ds| == |es| == |ns| == 8
    && ns[0] == Differ(ds[0], es[0]) && ns[1] == Differ(ds[1], es[1])
    && ns[2] == Differ(ds[2], es[2]) && ns[3] == Differ(ds[3], es[3])
    && ns[4] == Differ(ds[4], es[4]) && ns[5] == Differ(ds[5], es[5])
    && ns[6] == Differ(ds[6], es[6]) && ns[7] == Differ(ds[7], es[7])
  }

  function ByteOf(x: Hex, y: Hex): seq<Hex> { [H0, H0, H0, H0, H0, H0, x, y] }

  lemma AgainstBit(ds: seq<Hex>, es: seq<Hex>, ns: seq<Hex>, k: nat)
    requires Against(ds, es, ns) && k < 32
    ensures |ds| == |es| == |ns| == 8 && BitIn(ns, k) == (BitIn(ds, k) != BitIn(es, k))
  {
    var i := 7 - k / 4;
    assert ns[i] == Differ(ds[i], es[i]);
  }

  lemma AgainstIs(ds: seq<Hex>, es: seq<Hex>, ns: seq<Hex>)
    requires Against(ds, es, ns) && |ds| == |es| == |ns| == 8
    ensures Xor(Number(ds), Number(es)) == Number(ns)
  {
    hide Against, BitIn, BitOf, Number, Bitwise;
    var v := Xor(Number(ds), Number(es));
    forall k: nat ensures BitOf(v, k) == if k < 32 && BitIn(ns, k) then 1 else 0 {
      NumberBit(ds, k);
      NumberBit(es, k);
      BitwiseBit(BXor, Number(ds), Number(es), k);
      if k < 32 {
        AgainstBit(ds, es, ns, k);
      }
    }
    IsNumber(v, ns);
  }

  lemma ByteValue(x: Hex, y: Hex)
    ensures Number(ByteOf(x, y)) == 16 * Value(x) + Value(y)
  {
    var zeros := [H0, H0, H0, H0, H0, H0];
    ZeroNumber(zeros);
    assert ByteOf(x, y)[..7] == zeros + [x] && (zeros + [x])[..6] == zeros;
    assert Number(zeros + [x]) == Value(x);
  }

  lemma {:induction false} ZeroNumber(ds: seq<Hex>)
    requires forall i :: 0 <= i < |ds| ==> ds[i] == H0
    ensures Number(ds) == 0
  {
    if ds != [] {
      ZeroNumber(ds[..|ds| - 1]);
    }
  }

  /** A byte taken in: against the lowest digits, and eight steps. */
  lemma ByteIs(c: seq<Hex>, x: Hex, y: Hex, s: seq<seq<Hex>>)
    requires |c| == 8 && |s| == 9 && Against(c, ByteOf(x, y), s[0])
    requires Stepped(s[0], s[1]) && Stepped(s[1], s[2]) && Stepped(s[2], s[3]) && Stepped(s[3], s[4])
    requires Stepped(s[4], s[5]) && Stepped(s[5], s[6]) && Stepped(s[6], s[7]) && Stepped(s[7], s[8])
    ensures ByteStep(Number(c), 16 * Value(x) + Value(y)) == Number(s[8])
  {
    hide Stepped, Against, Number, Step, Xor, Value, One, Steps;
    AgainstSize(c, ByteOf(x, y), s[0]);
    AgainstIs(c, ByteOf(x, y), s[0]);
    ByteValue(x, y);
    StepsOn(s, 8);
  }

  lemma {:induction false} StepsOn(s: seq<seq<Hex>>, n: nat)
    requires |s| == n + 1 && forall i :: 0 <= i < n ==> Stepped(s[i], s[i + 1])
    ensures Steps(Number(s[0]), n) == Number(s[n])
    decreases n
  {
    hide Stepped, Number, Step;
    if n > 0 {
      assert Stepped(s[0], s[0 + 1]);
      SteppedSize(s[0], s[1]);
      StepIs(s[0], s[1]);
      forall i | 0 <= i < n - 1 ensures Stepped(s[1..][i], s[1..][i + 1]) {
        var j := i + 1;
        assert Stepped(s[j], s[j + 1]);
      }
      StepsOn(s[1..], n - 1);
    }
  }

  lemma SteppedSize(ds: seq<Hex>, ns: seq<Hex>)
    requires Stepped(ds, ns)
    ensures |ds| == |ns| == 8
  {
  }

  lemma AgainstSize(ds: seq<Hex>, es: seq<Hex>, ns: seq<Hex>)
    requires Against(ds, es, ns)
    ensures |ds| == |es| == |ns| == 8
  {
  }

  // ----- the nine characters -----

  lemma Byte1()
    ensures ByteStep(Number([HF, HF, HF, HF, HF, HF, HF, HF]), 0x31) == Number([H7, HC, H2, H3, H1, H0, H4, H8])
  {
    hide Number;
    var s := [
      [HF, HF, HF, HF, HF, HF, HC, HE],
      [H7, HF, HF, HF, HF, HF, HE, H7],
      [HD, H2, H4, H7, H7, HC, HD, H3],
      [H8, H4, H9, HB, H3, HD, H4, H9],
      [HA, HF, HF, H5, H1, HD, H8, H4],
      [H5, H7, HF, HA, H8, HE, HC, H2],
      [H2, HB, HF, HD, H4, H7, H6, H1],
      [HF, H8, H4, H6, H2, H0, H9, H0],
      [H7, HC, H2, H3, H1, H0, H4, H8]
    ];
    ByteIs([HF, HF, HF, HF, HF, HF, HF, HF], H3, H1, s);
  }

  lemma Byte2()
    ensures ByteStep(Number([H7, HC, H2, H3, H1, H0, H4, H8]), 0x32) == Number([HB, H0, HA, HC, HB, HB, H3, H2])
  {
    hide Number;
    var s := [
      [H7, HC, H2, H3, H1, H0, H7, HA],
      [H3, HE, H1, H1, H8, H8, H3, HD],
      [HF, H2, HB, H0, H4, H7, H3, HE],
      [H7, H9, H5, H8, H2, H3, H9, HF],
      [HD, H1, H1, H4, H9, H2, HE, HF],
      [H8, H5, H3, H2, HC, HA, H5, H7],
      [HA, HF, H2, H1, HE, H6, H0, HB],
      [HB, HA, H2, H8, H7, H0, H2, H5],
      [HB, H0, HA, HC, HB, HB, H3, H2]
    ];
    ByteIs([H7, HC, H2, H3, H1, H0, H4, H8], H3, H2, s);
  }

  lemma Byte3()
    ensures ByteStep(Number([HB, H0, HA, HC, HB, HB, H3, H2]), 0x33) == Number([H7, H7, HB, H7, H9, HC, H2, HD])
  {
    hide Number;
    var s := [
      [HB, H0, HA, HC, HB, HB, H0, H1],
      [HB, H5, HE, HE, HD, HE, HA, H0],
      [H5, HA, HF, H7, H6, HF, H5, H0],
      [H2, HD, H7, HB, HB, H7, HA, H8],
      [H1, H6, HB, HD, HD, HB, HD, H4],
      [H0, HB, H5, HE, HE, HD, HE, HA],
      [H0, H5, HA, HF, H7, H6, HF, H5],
      [HE, HF, H6, HF, H3, H8, H5, HA],
      [H7, H7, HB, H7, H9, HC, H2, HD]
    ];
    ByteIs([HB, H0, HA, HC, HB, HB, H3, H2], H3, H3, s);
  }

  lemma Byte4()
    ensures ByteStep(Number([H7, H7, HB, H7, H9, HC, H2, HD]), 0x34) == Number([H6, H4, H1, HC, H1, HF, H5, HC])
  {
    hide Number;
    var s := [
      [H7, H7, HB, H7, H9, HC, H1, H9],
      [HD, H6, H6, H3, H4, HD, H2, HC],
      [H6, HB, H3, H1, HA, H6, H9, H6],
      [H3, H5, H9, H8, HD, H3, H4, HB],
      [HF, H7, H7, H4, HE, HA, H8, H5],
      [H9, H6, H0, H2, HF, H6, H6, H2],
      [H4, HB, H0, H1, H7, HB, H3, H1],
      [HC, H8, H3, H8, H3, HE, HB, H8],
      [H6, H4, H1, HC, H1, HF, H5, HC]
    ];
    ByteIs([H7, H7, HB, H7, H9, HC, H2, HD], H3, H4, s);
  }

  lemma Byte5()
    ensures ByteStep(Number([H6, H4, H1, HC, H1, HF, H5, HC]), 0x35) == Number([H3, H4, H0, HA, HC, H5, HE, H3])
  {
    hide Number;
    var s := [
      [H6, H4, H1, HC, H1, HF, H6, H9],
      [HD, HF, HB, H6, H8, HC, H9, H4],
      [H6, HF, HD, HB, H4, H6, H4, HA],
      [H3, H7, HE, HD, HA, H3, H2, H5],
      [HF, H6, H4, HE, H5, H2, HB, H2],
      [H7, HB, H2, H7, H2, H9, H5, H9],
      [HD, H0, H2, HB, H1, H7, H8, HC],
      [H6, H8, H1, H5, H8, HB, HC, H6],
      [H3, H4, H0, HA, HC, H5, HE, H3]
    ];
    ByteIs([H6, H4, H1, HC, H1, HF, H5, HC], H3, H5, s);
  }

  lemma Byte6()
    ensures ByteStep(Number([H3, H4, H0, HA, HC, H5, HE, H3]), 0x36) == Number([HF, H6, H8, HD, H2, HC, H9, HE])
  {
    hide Number;
    var s := [
      [H3, H4, H0, HA, HC, H5, HD, H5],
      [HF, H7, HB, HD, HE, H1, HC, HA],
      [H7, HB, HD, HE, HF, H0, HE, H5],
      [HD, H0, H5, H7, HF, HB, H5, H2],
      [H6, H8, H2, HB, HF, HD, HA, H9],
      [HD, H9, HA, HD, H7, HD, HF, H4],
      [H6, HC, HD, H6, HB, HE, HF, HA],
      [H3, H6, H6, HB, H5, HF, H7, HD],
      [HF, H6, H8, HD, H2, HC, H9, HE]
    ];
    ByteIs([H3, H4, H0, HA, HC, H5, HE, H3], H3, H6, s);
  }

  lemma Byte7()
    ensures ByteStep(Number([HF, H6, H8, HD, H2, HC, H9, HE]), 0x37) == Number([HA, HF, HF, HC, H9, H6, H6, H0])
  {
    hide Number;
    var s := [
      [HF, H6, H8, HD, H2, HC, HA, H9],
      [H9, H6, HF, HE, H1, H5, H7, H4],
      [H4, HB, H7, HF, H0, HA, HB, HA],
      [H2, H5, HB, HF, H8, H5, H5, HD],
      [HF, HF, H6, H7, H4, H1, H8, HE],
      [H7, HF, HB, H3, HA, H0, HC, H7],
      [HD, H2, H6, H1, H5, H3, H4, H3],
      [H8, H4, H8, H8, H2, HA, H8, H1],
      [HA, HF, HF, HC, H9, H6, H6, H0]
    ];
    ByteIs([HF, H6, H8, HD, H2, HC, H9, HE], H3, H7, s);
  }

  lemma Byte8()
    ensures ByteStep(Number([HA, HF, HF, HC, H9, H6, H6, H0]), 0x38) == Number([H6, H5, H1, HF, H2, H5, H5, H0])
  {
    hide Number;
    var s := [
      [HA, HF, HF, HC, H9, H6, H5, H8],
      [H5, H7, HF, HE, H4, HB, H2, HC],
      [H2, HB, HF, HF, H2, H5, H9, H6],
      [H1, H5, HF, HF, H9, H2, HC, HB],
      [HE, H7, H4, H7, H4, HA, H4, H5],
      [H9, HE, H1, HB, H2, H6, H0, H2],
      [H4, HF, H0, HD, H9, H3, H0, H1],
      [HC, HA, H3, HE, H4, HA, HA, H0],
      [H6, H5, H1, HF, H2, H5, H5, H0]
    ];
    ByteIs([HA, HF, HF, HC, H9, H6, H6, H0], H3, H8, s);
  }

  lemma Byte9()
    ensures ByteStep(Number([H6, H5, H1, HF, H2, H5, H5, H0]), 0x39) == Number([H3, H4, H0, HB, HC, H6, HD, H9])
  {
    hide Number;
    var s := [
      [H6, H5, H1, HF, H2, H5, H6, H9],
      [HD, HF, H3, H7, H1, H1, H9, H4],
      [H6, HF, H9, HB, H8, H8, HC, HA],
      [H3, H7, HC, HD, HC, H4, H6, H5],
      [HF, H6, H5, HE, H6, H1, H1, H2],
      [H7, HB, H2, HF, H3, H0, H8, H9],
      [HD, H0, H2, HF, H1, HB, H6, H4],
      [H6, H8, H1, H7, H8, HD, HB, H2],
      [H3, H4, H0, HB, HC, H6, HD, H9]
    ];
    ByteIs([H6, H5, H1, HF, H2, H5, H5, H0], H3, H9, s);
  }

  const NINE: seq<Byte> := [0x31, 0x32, 0x33, 0x34, 0x35, 0x36, 0x37, 0x38, 0x39]

  lemma UpdateTail(c: nat, bs: seq<Byte>, k: nat)
    requires k < |bs|
    ensures Update(c, bs[k..]) == Update(ByteStep(c, bs[k]), bs[k + 1..])
  {
    hide ByteStep;
    assert bs[k..][1..] == bs[k + 1..] && bs[k..][0] == bs[k];
  }

  lemma Ones()
    ensures ONES == Number([HF, HF, HF, HF, HF, HF, HF, HF])
  {
    var ds := [HF, HF, HF, HF, HF, HF, HF, HF];
    assert ds[..7][..6] == ds[..6] && ds[..6][..5] == ds[..5] && ds[..5][..4] == ds[..4] && ds[..4][..3] == ds[..3] && ds[..3][..2] == ds[..2] && ds[..2][..1] == ds[..1];
    assert ds[..1][..0] == [] && ds[..7][..6] == ds[..6];
    assert Number(ds[..1]) == 0xF && Number(ds[..2]) == 0xFF && Number(ds[..3]) == 0xFFF && Number(ds[..4]) == 0xFFFF;
    assert Number(ds[..5]) == 0xFFFFF && Number(ds[..6]) == 0xFFFFFF && Number(ds[..7]) == 0xFFFFFFF;
  }

  lemma Result()
    ensures 0xCBF43926 == Number([HC, HB, HF, H4, H3, H9, H2, H6])
  {
    var ds := [HC, HB, HF, H4, H3, H9, H2, H6];
    assert ds[..7][..6] == ds[..6] && ds[..6][..5] == ds[..5] && ds[..5][..4] == ds[..4] && ds[..4][..3] == ds[..3] && ds[..3][..2] == ds[..2] && ds[..2][..1] == ds[..1];
    assert ds[..1][..0] == [];
    assert Number(ds[..1]) == 0xC && Number(ds[..2]) == 0xCB && Number(ds[..3]) == 0xCBF && Number(ds[..4]) == 0xCBF4;
    assert Number(ds[..5]) == 0xCBF43 && Number(ds[..6]) == 0xCBF439 && Number(ds[..7]) == 0xCBF4392;
  }

  /** The CRC of the nine characters 123456789. */
  lemma CheckValue()
    ensures Crc32(NINE) == 0xCBF43926
  {
    hide Number, ByteStep, Update, Xor;
    Ones();
    Result();
    assert NINE[0..] == NINE && NINE[9..] == [];
    Byte1();
    UpdateTail(Number([HF, HF, HF, HF, HF, HF, HF, HF]), NINE, 0);
    Byte2();
    UpdateTail(Number([H7, HC, H2, H3, H1, H0, H4, H8]), NINE, 1);
    Byte3();
    UpdateTail(Number([HB, H0, HA, HC, HB, HB, H3, H2]), NINE, 2);
    Byte4();
    UpdateTail(Number([H7, H7, HB, H7, H9, HC, H2, HD]), NINE, 3);
    Byte5();
    UpdateTail(Number([H6, H4, H1, HC, H1, HF, H5, HC]), NINE, 4);
    Byte6();
    UpdateTail(Number([H3, H4, H0, HA, HC, H5, HE, H3]), NINE, 5);
    Byte7();
    UpdateTail(Number([HF, H6, H8, HD, H2, HC, H9, HE]), NINE, 6);
    Byte8();
    UpdateTail(Number([HA, HF, HF, HC, H9, H6, H6, H0]), NINE, 7);
    Byte9();
    UpdateTail(Number([H6, H5, H1, HF, H2, H5, H5, H0]), NINE, 8);
    assert Update(Number([H3, H4, H0, HB, HC, H6, HD, H9]), []) == Number([H3, H4, H0, HB, HC, H6, HD, H9]) by { UpdateNone(Number([H3, H4, H0, HB, HC, H6, HD, H9])); }
    assert Against([H3, H4, H0, HB, HC, H6, HD, H9], [HF, HF, HF, HF, HF, HF, HF, HF], [HC, HB, HF, H4, H3, H9, H2, H6]);
    AgainstIs([H3, H4, H0, HB, HC, H6, HD, H9], [HF, HF, HF, HF, HF, HF, HF, HF], [HC, HB, HF, H4, H3, H9, H2, H6]);
  }

  lemma UpdateNone(c: nat)
    ensures Update(c, []) == c
  {
  }
}
