/** A known answer of the cipher, and what the boxes select. */
module DesVector {
  import opened DesTables
  import opened Des
  import opened Hexadecimal

  // ----- laws of the tables -----

  function One(b: bool): nat { if b then 1 else 0 }

  /** The outer two of six bits choose the row of a box, the inner four the column. */
  lemma ChosenEntry(p: Bits, g: nat)
    requires |p| == 48 && g < 8
    ensures var row, column := 2 * One(p[6 * g]) + One(p[6 * g + 5]),
                8 * One(p[6 * g + 1]) + 4 * One(p[6 * g + 2]) + 2 * One(p[6 * g + 3]) + One(p[6 * g + 4]);
            && |S| == 8 && |S[g]| == 4 && |S[g][row]| == 16
            && Chosen(p, g) == S[g][row][column]
  {
    BoxShape(g);
    var row, column := 2 * One(p[6 * g]) + One(p[6 * g + 5]),
        8 * One(p[6 * g + 1]) + 4 * One(p[6 * g + 2]) + 2 * One(p[6 * g + 3]) + One(p[6 * g + 4]);
    BoxAt(g, row, column);
  }

  lemma BoxAt(g: nat, row: nat, column: nat)
    requires g < 8 && row < 4 && column < 16
    ensures |S| == 8 && |S[g]| == 4 && |S[g][row]| == 16 && Box(g, 16 * row + column) == S[g][row][column]
  {
    BoxShape(g);
    assert (16 * row + column) / 16 == row && (16 * row + column) % 16 == column;
  }

  /** The selection repeats the last bit before and the first bit behind each four. */
  lemma StandardAt(g: nat, q: nat)
    requires g < 8 && q < 6
    ensures Standard(6 * g + q) == (4 * g + q + 31) % 32 + 1
  {
    assert (6 * g + q) / 6 == g && (6 * g + q) % 6 == q;
    StandardEntry(g, q);
  }

  lemma StandardEntry(g: nat, q: nat)
    requires g < 8 && q < 6
    ensures |E0| == 8 && |E0[g]| == 6 && E0[g][q] == (4 * g + q + 31) % 32 + 1
  {
  }

  // ----- words in digits -----

  function FromHex(ds: seq<Hex>): (b: Bits)
    ensures |b| == 4 * |ds|
  {
    seq(4 * |ds|, j requires 0 <= j < 4 * |ds| => Bit(ds[j / 4], j % 4))
  }

  lemma HexAt(ds: seq<Hex>, i: nat, q: nat)
    requires i < |ds| && q < 4
    ensures FromHex(ds)[4 * i + q] == Bit(ds[i], q)
  {
    assert (4 * i + q) / 4 == i && (4 * i + q) % 4 == q;
  }

  /** The digit that stands for what a box gives. */
  predicate Shows(h: Hex, n: Nibble) {
    n == Weight(h.a, 8) + Weight(h.b, 4) + Weight(h.c, 2) + Weight(h.d, 1)
  }

  lemma ShowsBits(h: Hex, n: Nibble, q: nat)
    requires Shows(h, n) && q < 4
    ensures NibbleBit(n, q) == Bit(h, q)
  {
  }

  /** The selection without salt. */
  function Unsalted(): (e: seq<Half>)
    ensures IsSelection(e)
  {
    seq(48, j requires 0 <= j < 48 => Standard(j))
  }

  // ----- a round in digits -----

  /** Where boxes 2 h and 2 h + 1 are entered: the end of digit a, digits b and c and the
      start of digit d, against the key digits x, y and z. */
  function Even(a: Hex, b: Hex, c: Hex, x: Hex, y: Hex): (k: nat)
    ensures k < 64
  {
    Weight(a.d != x.a, 32) + Weight(b.a != x.b, 8) + Weight(b.b != x.c, 4) + Weight(b.c != x.d, 2)
    + Weight(b.d != y.a, 1) + Weight(c.a != y.b, 16)
  }

  function Odd(b: Hex, c: Hex, d: Hex, y: Hex, z: Hex): (k: nat)
    ensures k < 64
  {
    Weight(b.d != y.c, 32) + Weight(c.a != y.d, 8) + Weight(c.b != z.a, 4) + Weight(c.c != z.b, 2)
    + Weight(c.d != z.c, 1) + Weight(d.a != z.d, 16)
  }

  lemma PreSAt(kd: seq<Hex>, rd: seq<Hex>, g: nat, q: nat)
    requires |kd| == 12 && |rd| == 8 && g < 8 && q < 6
    ensures PreS(Unsalted(), FromHex(kd), FromHex(rd))[6 * g + q]
         == (FromHex(rd)[(4 * g + q + 31) % 32] != FromHex(kd)[6 * g + q])
  {
    hide Standard, FromHex;
    StandardAt(g, q);
  }

  /** Bit q of a group comes from digit i of the right half and digit k of the key. */
  lemma GroupBit(kd: seq<Hex>, rd: seq<Hex>, g: nat, q: nat, i: nat, u: nat, k: nat, v: nat)
    requires |kd| == 12 && |rd| == 8 && g < 8 && q < 6 && i < 8 && u < 4 && k < 12 && v < 4
    requires 4 * i + u == (4 * g + q + 31) % 32 && 4 * k + v == 6 * g + q
    ensures PreS(Unsalted(), FromHex(kd), FromHex(rd))[6 * g + q] == (Bit(rd[i], u) != Bit(kd[k], v))
  {
    hide FromHex, PreS, Unsalted, Bit;
    PreSAt(kd, rd, g, q);
    HexAt(rd, i, u);
    HexAt(kd, k, v);
  }

  lemma ChosenBits(p: Bits, g: nat, b0: bool, b1: bool, b2: bool, b3: bool, b4: bool, b5: bool)
    requires |p| == 48 && g < 8
    requires p[6 * g] == b0 && p[6 * g + 1] == b1 && p[6 * g + 2] == b2 && p[6 * g + 3] == b3 && p[6 * g + 4] == b4
    requires p[6 * g + 5] == b5
    ensures var k := Weight(b0, 32) + Weight(b1, 8) + Weight(b2, 4) + Weight(b3, 2) + Weight(b4, 1) + Weight(b5, 16);
            Chosen(p, g) == Box(g, k)
  {
  }

  lemma EvenChosen(kd: seq<Hex>, rd: seq<Hex>, h: nat, before: nat)
    requires |kd| == 12 && |rd| == 8 && h < 4 && before == (if h == 0 then 7 else 2 * h - 1)
    ensures Chosen(PreS(Unsalted(), FromHex(kd), FromHex(rd)), 2 * h)
         == Box(2 * h, Even(rd[before], rd[2 * h], rd[2 * h + 1], kd[3 * h], kd[3 * h + 1]))
  {
    hide FromHex, PreS, Unsalted, Box, Chosen, Weight;
    var p := PreS(Unsalted(), FromHex(kd), FromHex(rd));
    GroupBit(kd, rd, 2 * h, 0, before, 3, 3 * h, 0);
    GroupBit(kd, rd, 2 * h, 1, 2 * h, 0, 3 * h, 1);
    GroupBit(kd, rd, 2 * h, 2, 2 * h, 1, 3 * h, 2);
    GroupBit(kd, rd, 2 * h, 3, 2 * h, 2, 3 * h, 3);
    GroupBit(kd, rd, 2 * h, 4, 2 * h, 3, 3 * h + 1, 0);
    GroupBit(kd, rd, 2 * h, 5, 2 * h + 1, 0, 3 * h + 1, 1);
    var a, b, c, x, y := rd[before], rd[2 * h], rd[2 * h + 1], kd[3 * h], kd[3 * h + 1];
    ChosenBits(p, 2 * h, a.d != x.a, b.a != x.b, b.b != x.c, b.c != x.d, b.d != y.a, c.a != y.b);
  }

  lemma OddChosen(kd: seq<Hex>, rd: seq<Hex>, h: nat, behind: nat)
    requires |kd| == 12 && |rd| == 8 && h < 4 && behind == (if h == 3 then 0 else 2 * h + 2)
    ensures Chosen(PreS(Unsalted(), FromHex(kd), FromHex(rd)), 2 * h + 1)
         == Box(2 * h + 1, Odd(rd[2 * h], rd[2 * h + 1], rd[behind], kd[3 * h + 1], kd[3 * h + 2]))
  {
    hide FromHex, PreS, Unsalted, Box, Chosen, Weight;
    var p := PreS(Unsalted(), FromHex(kd), FromHex(rd));
    var g := 2 * h + 1;
    GroupBit(kd, rd, g, 0, 2 * h, 3, 3 * h + 1, 2);
    GroupBit(kd, rd, g, 1, g, 0, 3 * h + 1, 3);
    GroupBit(kd, rd, g, 2, g, 1, 3 * h + 2, 0);
    GroupBit(kd, rd, g, 3, g, 2, 3 * h + 2, 1);
    GroupBit(kd, rd, g, 4, g, 3, 3 * h + 2, 2);
    GroupBit(kd, rd, g, 5, behind, 0, 3 * h + 2, 3);
    var b, c, d, y, z := rd[2 * h], rd[2 * h + 1], rd[behind], kd[3 * h + 1], kd[3 * h + 2];
    ChosenBits(p, g, b.d != y.c, c.a != y.d, c.b != z.a, c.c != z.b, c.d != z.c, d.a != z.d);
  }

  /** Boxes 2 h and 2 h + 1 are entered at m and n, and give s and t. */
  predicate Boxes(h: nat, a: Hex, b: Hex, c: Hex, d: Hex, x: Hex, y: Hex, z: Hex, m: nat, n: nat, s: Hex, t: Hex)
    requires h < 4
  {
    && Even(a, b, c, x, y) == m < 64 && Odd(b, c, d, y, z) == n < 64
    && Shows(s, Box(2 * h, m)) && Shows(t, Box(2 * h + 1, n))
  }

  /** A digit against four bits. */
  predicate Mix(l: Hex, n: Hex, u0: bool, u1: bool, u2: bool, u3: bool) {
    n.a == (l.a != u0) && n.b == (l.b != u1) && n.c == (l.c != u2) && n.d == (l.d != u3)
  }

  /** The permuted bits of sd against ld give nd; eight digits each. */
  predicate Mixes(ld: seq<Hex>, sd: seq<Hex>, nd: seq<Hex>) {
    && |ld| == |sd| == |nd| == 8
    && Mix(ld[0], nd[0], sd[3].d, sd[1].c, sd[4].d, sd[5].a)
    && Mix(ld[1], nd[1], sd[7].a, sd[2].d, sd[6].d, sd[4].a)
    && Mix(ld[2], nd[2], sd[0].a, sd[3].c, sd[5].c, sd[6].b)
    && Mix(ld[3], nd[3], sd[1].a, sd[4].b, sd[7].c, sd[2].b)
    && Mix(ld[4], nd[4], sd[0].b, sd[1].d, sd[5].d, sd[3].b)
    && Mix(ld[5], nd[5], sd[7].d, sd[6].c, sd[0].c, sd[2].a)
    && Mix(ld[6], nd[6], sd[4].c, sd[3].a, sd[7].b, sd[1].b)
    && Mix(ld[7], nd[7], sd[5].b, sd[2].c, sd[0].d, sd[6].a)
  }

  lemma MixedLow()
    ensures Mixed(0) == 16 && Mixed(1) == 7 && Mixed(2) == 20 && Mixed(3) == 21 && Mixed(4) == 29 && Mixed(5) == 12 && Mixed(6) == 28 && Mixed(7) == 17
    ensures Mixed(8) == 1 && Mixed(9) == 15 && Mixed(10) == 23 && Mixed(11) == 26 && Mixed(12) == 5 && Mixed(13) == 18 && Mixed(14) == 31 && Mixed(15) == 10
  {
  }

  lemma MixedHigh()
    ensures Mixed(16) == 2 && Mixed(17) == 8 && Mixed(18) == 24 && Mixed(19) == 14 && Mixed(20) == 32 && Mixed(21) == 27 && Mixed(22) == 3 && Mixed(23) == 9
    ensures Mixed(24) == 19 && Mixed(25) == 13 && Mixed(26) == 30 && Mixed(27) == 6 && Mixed(28) == 22 && Mixed(29) == 11 && Mixed(30) == 4 && Mixed(31) == 25
  {
  }

  /** Bit j behind the permutation. */
  function MixedBit(sd: seq<Hex>, j: nat): bool
    requires |sd| == 8 && j < 32
  {
    Bit(sd[(Mixed(j) - 1) / 4], (Mixed(j) - 1) % 4)
  }

  lemma MixesLow(ld: seq<Hex>, sd: seq<Hex>, nd: seq<Hex>, i: nat, q: nat)
    requires Mixes(ld, sd, nd) && i < 4 && q < 4
    ensures Bit(nd[i], q) == (Bit(ld[i], q) != MixedBit(sd, 4 * i + q))
  {
    hide Mixed;
    MixedLow();
    match i
    case 0 => MixAt(ld[0], nd[0], sd, 0, q, 15, 6, 19, 20);
    case 1 => MixAt(ld[1], nd[1], sd, 1, q, 28, 11, 27, 16);
    case 2 => MixAt(ld[2], nd[2], sd, 2, q, 0, 14, 22, 25);
    case 3 => MixAt(ld[3], nd[3], sd, 3, q, 4, 17, 30, 9);
  }

  lemma MixesHigh(ld: seq<Hex>, sd: seq<Hex>, nd: seq<Hex>, i: nat, q: nat)
    requires Mixes(ld, sd, nd) && 4 <= i < 8 && q < 4
    ensures Bit(nd[i], q) == (Bit(ld[i], q) != MixedBit(sd, 4 * i + q))
  {
    hide Mixed;
    MixedHigh();
    match i
    case 4 => MixAt(ld[4], nd[4], sd, 4, q, 1, 7, 23, 13);
    case 5 => MixAt(ld[5], nd[5], sd, 5, q, 31, 26, 2, 8);
    case 6 => MixAt(ld[6], nd[6], sd, 6, q, 18, 12, 29, 5);
    case 7 => MixAt(ld[7], nd[7], sd, 7, q, 21, 10, 3, 24);
  }

  lemma MixAt(l: Hex, n: Hex, sd: seq<Hex>, i: nat, q: nat, p0: nat, p1: nat, p2: nat, p3: nat)
    requires |sd| == 8 && i < 8 && q < 4 && p0 < 32 && p1 < 32 && p2 < 32 && p3 < 32
    requires Mixed(4 * i) == p0 + 1 && Mixed(4 * i + 1) == p1 + 1 && Mixed(4 * i + 2) == p2 + 1 && Mixed(4 * i + 3) == p3 + 1
    requires Mix(l, n, Bit(sd[p0 / 4], p0 % 4), Bit(sd[p1 / 4], p1 % 4), Bit(sd[p2 / 4], p2 % 4), Bit(sd[p3 / 4], p3 % 4))
    ensures Bit(n, q) == (Bit(l, q) != MixedBit(sd, 4 * i + q))
  {
    hide Mixed;
  }

  lemma RoundFrom(kd: seq<Hex>, ld: seq<Hex>, rd: seq<Hex>, sd: seq<Hex>, nd: seq<Hex>, m: seq<nat>)
    requires |kd| == 12 && |rd| == 8 && |sd| == 8 && |m| == 8 && Mixes(ld, sd, nd)
    requires Boxes(0, rd[7], rd[0], rd[1], rd[2], kd[0], kd[1], kd[2], m[0], m[1], sd[0], sd[1])
    requires Boxes(1, rd[1], rd[2], rd[3], rd[4], kd[3], kd[4], kd[5], m[2], m[3], sd[2], sd[3])
    requires Boxes(2, rd[3], rd[4], rd[5], rd[6], kd[6], kd[7], kd[8], m[4], m[5], sd[4], sd[5])
    requires Boxes(3, rd[5], rd[6], rd[7], rd[0], kd[9], kd[10], kd[11], m[6], m[7], sd[6], sd[7])
    ensures |ld| == |nd| == 8
    ensures Round(Unsalted(), FromHex(kd), Halves(FromHex(ld), FromHex(rd))) == Halves(FromHex(rd), FromHex(nd))
  {
    hide FromHex, NibbleBit, PreS, Box, Chosen, Mixed, MixedBit, Even, Odd, Mix, Unsalted, Bit, Shows;
    var p := PreS(Unsalted(), FromHex(kd), FromHex(rd));
    EvenChosen(kd, rd, 0, 7);
    EvenChosen(kd, rd, 1, 1);
    EvenChosen(kd, rd, 2, 3);
    EvenChosen(kd, rd, 3, 5);
    OddChosen(kd, rd, 0, 2);
    OddChosen(kd, rd, 1, 4);
    OddChosen(kd, rd, 2, 6);
    OddChosen(kd, rd, 3, 0);
    assert forall g :: 0 <= g < 8 ==> Shows(sd[g], Chosen(p, g));
    NewRight(kd, ld, rd, sd, nd);
  }

  lemma NewRight(kd: seq<Hex>, ld: seq<Hex>, rd: seq<Hex>, sd: seq<Hex>, nd: seq<Hex>)
    requires |kd| == 12 && |rd| == 8 && Mixes(ld, sd, nd)
    requires forall g :: 0 <= g < 8 ==> Shows(sd[g], Chosen(PreS(Unsalted(), FromHex(kd), FromHex(rd)), g))
    ensures |ld| == |nd| == 8
    ensures Round(Unsalted(), FromHex(kd), Halves(FromHex(ld), FromHex(rd))) == Halves(FromHex(rd), FromHex(nd))
  {
    hide FromHex, NibbleBit, PreS, Chosen, Mixed, Mix, Unsalted, Bit, Shows;
    var f := F(Unsalted(), FromHex(kd), FromHex(rd));
    forall j | 0 <= j < 32 ensures FromHex(nd)[j] == Xor(FromHex(ld), f)[j] {
      var i, q := j / 4, j % 4;
      assert j == 4 * i + q;
      HexAt(nd, i, q);
      HexAt(ld, i, q);
      if i < 4 { MixesLow(ld, sd, nd, i, q); } else { MixesHigh(ld, sd, nd, i, q); }
      var g, b := (Mixed(j) - 1) / 4, (Mixed(j) - 1) % 4;
      ShowsBits(sd[g], Chosen(PreS(Unsalted(), FromHex(kd), FromHex(rd)), g), b);
    }
    assert FromHex(nd) == Xor(FromHex(ld), f);
  }

  // ----- the schedule in digits -----

  /** The digits of a register after it has been turned t places. */
  ghost predicate IsC(key: Bits, c: seq<Hex>, t: nat) {
    |key| == 64 && |c| == 7 && forall j :: 0 <= j < 28 ==> FromHex(c)[j] == key[Pc1C((j + t) % 28) - 1]
  }

  ghost predicate IsD(key: Bits, d: seq<Hex>, t: nat) {
    |key| == 64 && |d| == 7 && forall j :: 0 <= j < 28 ==> FromHex(d)[j] == key[Pc1D((j + t) % 28) - 1]
  }

  /** One place, or two, to the left. */
  predicate Turn(c: seq<Hex>, n: nat, c': seq<Hex>) {
    && |c| == |c'| == 7 && 1 <= n <= 2
    && c'[0] == Next(c[0], c[1], n) && c'[1] == Next(c[1], c[2], n) && c'[2] == Next(c[2], c[3], n)
    && c'[3] == Next(c[3], c[4], n) && c'[4] == Next(c[4], c[5], n) && c'[5] == Next(c[5], c[6], n)
    && c'[6] == Next(c[6], c[0], n)
  }

  function Next(x: Hex, y: Hex, n: nat): Hex {
    if n == 1 then Hex(x.b, x.c, x.d, y.a) else Hex(x.c, x.d, y.a, y.b)
  }

  lemma TurnAt(c: seq<Hex>, n: nat, c': seq<Hex>, i: nat, q: nat)
    requires Turn(c, n, c') && i < 7 && q < 4
    ensures Bit(c'[i], q) == if q + n < 4 then Bit(c[i], q + n) else Bit(c[if i == 6 then 0 else i + 1], q + n - 4)
  {
  }

  lemma TurnBit(c: seq<Hex>, n: nat, c': seq<Hex>, j: nat)
    requires Turn(c, n, c') && j < 28
    ensures FromHex(c')[j] == FromHex(c)[(j + n) % 28]
  {
    hide FromHex, Turn, Bit;
    TurnSize(c, n, c');
    var i, q := j / 4, j % 4;
    assert j == 4 * i + q;
    TurnAt(c, n, c', i, q);
    HexAt(c', i, q);
    if q + n < 4 {
      HexAt(c, i, q + n);
    } else {
      HexAt(c, if i == 6 then 0 else i + 1, q + n - 4);
    }
  }

  lemma TurnSize(c: seq<Hex>, n: nat, c': seq<Hex>)
    requires Turn(c, n, c')
    ensures |c| == |c'| == 7 && 1 <= n <= 2
  {
  }

  lemma TurnC(key: Bits, c: seq<Hex>, t: nat, n: nat, c': seq<Hex>)
    requires IsC(key, c, t) && Turn(c, n, c')
    ensures IsC(key, c', t + n)
  {
    hide FromHex, Turn, Pc1C;
    TurnSize(c, n, c');
    var u := t + n;
    forall j | 0 <= j < 28 ensures FromHex(c')[j] == key[Pc1C((j + u) % 28) - 1] {
      TurnBit(c, n, c', j);
      assert ((j + n) % 28 + t) % 28 == (j + u) % 28;
    }
  }

  lemma TurnD(key: Bits, d: seq<Hex>, t: nat, n: nat, d': seq<Hex>)
    requires IsD(key, d, t) && Turn(d, n, d')
    ensures IsD(key, d', t + n)
  {
    hide FromHex, Turn, Pc1D;
    TurnSize(d, n, d');
    var u := t + n;
    forall j | 0 <= j < 28 ensures FromHex(d')[j] == key[Pc1D((j + u) % 28) - 1] {
      TurnBit(d, n, d', j);
      assert ((j + n) % 28 + t) % 28 == (j + u) % 28;
    }
  }

  /** Permuted choice 2: six digits of a key from either register. */
  predicate PicksC(c: seq<Hex>, kd: seq<Hex>) {
    && |c| == 7 && |kd| == 12
    && kd[0] == Hex(c[3].b, c[4].a, c[2].c, c[5].d)
    && kd[1] == Hex(c[0].a, c[1].a, c[0].c, c[6].d)
    && kd[2] == Hex(c[3].c, c[1].b, c[5].a, c[2].b)
    && kd[3] == Hex(c[5].c, c[4].c, c[2].d, c[0].d)
    && kd[4] == Hex(c[6].b, c[1].d, c[3].d, c[1].c)
    && kd[5] == Hex(c[6].c, c[4].d, c[3].a, c[0].b)
  }

  predicate PicksD(d: seq<Hex>, kd: seq<Hex>) {
    && |d| == 7 && |kd| == 12
    && kd[6] == Hex(d[3].a, d[5].d, d[0].c, d[2].a)
    && kd[7] == Hex(d[4].c, d[6].c, d[0].b, d[2].d)
    && kd[8] == Hex(d[5].c, d[4].a, d[1].a, d[4].d)
    && kd[9] == Hex(d[3].d, d[5].a, d[2].c, d[6].d)
    && kd[10] == Hex(d[1].b, d[6].a, d[4].b, d[3].b)
    && kd[11] == Hex(d[5].b, d[1].d, d[0].a, d[0].d)
  }

  lemma ChoiceC()
    ensures Pc2C(0) == 14 && Pc2C(1) == 17 && Pc2C(2) == 11 && Pc2C(3) == 24 && Pc2C(4) == 1 && Pc2C(5) == 5
    ensures Pc2C(6) == 3 && Pc2C(7) == 28 && Pc2C(8) == 15 && Pc2C(9) == 6 && Pc2C(10) == 21 && Pc2C(11) == 10
    ensures Pc2C(12) == 23 && Pc2C(13) == 19 && Pc2C(14) == 12 && Pc2C(15) == 4 && Pc2C(16) == 26 && Pc2C(17) == 8
    ensures Pc2C(18) == 16 && Pc2C(19) == 7 && Pc2C(20) == 27 && Pc2C(21) == 20 && Pc2C(22) == 13 && Pc2C(23) == 2
  {
  }

  lemma ChoiceD()
    ensures Pc2D(0) == 41 && Pc2D(1) == 52 && Pc2D(2) == 31 && Pc2D(3) == 37 && Pc2D(4) == 47 && Pc2D(5) == 55
    ensures Pc2D(6) == 30 && Pc2D(7) == 40 && Pc2D(8) == 51 && Pc2D(9) == 45 && Pc2D(10) == 33 && Pc2D(11) == 48
    ensures Pc2D(12) == 44 && Pc2D(13) == 49 && Pc2D(14) == 39 && Pc2D(15) == 56 && Pc2D(16) == 34 && Pc2D(17) == 53
    ensures Pc2D(18) == 46 && Pc2D(19) == 42 && Pc2D(20) == 50 && Pc2D(21) == 36 && Pc2D(22) == 29 && Pc2D(23) == 32
  {
  }

  lemma PicksCAt(c: seq<Hex>, kd: seq<Hex>, i: nat, q: nat)
    requires PicksC(c, kd) && i < 6 && q < 4
    ensures var p := Pc2C(4 * i + q) - 1; Bit(kd[i], q) == Bit(c[p / 4], p % 4)
  {
    hide Pc2C;
    ChoiceC();
  }

  lemma PicksDAt(d: seq<Hex>, kd: seq<Hex>, i: nat, q: nat)
    requires PicksD(d, kd) && i < 6 && q < 4
    ensures var p := Pc2D(4 * i + q) - 29; Bit(kd[i + 6], q) == Bit(d[p / 4], p % 4)
  {
    hide Pc2D;
    ChoiceD();
  }

  lemma PickSizes(c: seq<Hex>, d: seq<Hex>, kd: seq<Hex>)
    requires PicksC(c, kd) && PicksD(d, kd)
    ensures |c| == 7 && |d| == 7 && |kd| == 12
  {
  }

  /** The key of round i, picked from the registers. */
  lemma KeyFrom(key: Bits, i: nat, c: seq<Hex>, d: seq<Hex>, kd: seq<Hex>)
    requires |key| == 64 && i < 16 && IsC(key, c, Turned(i)) && IsD(key, d, Turned(i)) && PicksC(c, kd) && PicksD(d, kd)
    ensures Schedule(key)[i] == FromHex(kd)
  {
    hide FromHex, PicksC, PicksD, Turned, Pc1C, Pc1D, Pc2C, Pc2D, Bit;
    PickSizes(c, d, kd);
    forall j | 0 <= j < 48 ensures Schedule(key)[i][j] == FromHex(kd)[j] {
      var k, q := j / 4, j % 4;
      assert j == 4 * k + q;
      HexAt(kd, k, q);
      if j < 24 {
        PicksCAt(c, kd, k, q);
        var p := Pc2C(j) - 1;
        HexAt(c, p / 4, p % 4);
      } else {
        PicksDAt(d, kd, k - 6, q);
        var p := Pc2D(j - 24) - 29;
        assert 4 * (k - 6) + q == j - 24;
        HexAt(d, p / 4, p % 4);
      }
    }
  }

  // ----- the first and the last permutation in digits -----

  predicate RegisterC(k: seq<Hex>, c: seq<Hex>) {
    && |k| == 16 && |c| == 7
    && c[0] == Hex(k[14].a, k[12].a, k[10].a, k[8].a)
    && c[1] == Hex(k[6].a, k[4].a, k[2].a, k[0].a)
    && c[2] == Hex(k[14].b, k[12].b, k[10].b, k[8].b)
    && c[3] == Hex(k[6].b, k[4].b, k[2].b, k[0].b)
    && c[4] == Hex(k[14].c, k[12].c, k[10].c, k[8].c)
    && c[5] == Hex(k[6].c, k[4].c, k[2].c, k[0].c)
    && c[6] == Hex(k[14].d, k[12].d, k[10].d, k[8].d)
  }

  predicate RegisterD(k: seq<Hex>, d: seq<Hex>) {
    && |k| == 16 && |d| == 7
    && d[0] == Hex(k[15].c, k[13].c, k[11].c, k[9].c)
    && d[1] == Hex(k[7].c, k[5].c, k[3].c, k[1].c)
    && d[2] == Hex(k[15].b, k[13].b, k[11].b, k[9].b)
    && d[3] == Hex(k[7].b, k[5].b, k[3].b, k[1].b)
    && d[4] == Hex(k[15].a, k[13].a, k[11].a, k[9].a)
    && d[5] == Hex(k[7].a, k[5].a, k[3].a, k[1].a)
    && d[6] == Hex(k[6].d, k[4].d, k[2].d, k[0].d)
  }

  lemma FirstC()
    ensures Pc1C(0) == 57 && Pc1C(1) == 49 && Pc1C(2) == 41 && Pc1C(3) == 33 && Pc1C(4) == 25 && Pc1C(5) == 17 && Pc1C(6) == 9
    ensures Pc1C(7) == 1 && Pc1C(8) == 58 && Pc1C(9) == 50 && Pc1C(10) == 42 && Pc1C(11) == 34 && Pc1C(12) == 26 && Pc1C(13) == 18
    ensures Pc1C(14) == 10 && Pc1C(15) == 2 && Pc1C(16) == 59 && Pc1C(17) == 51 && Pc1C(18) == 43 && Pc1C(19) == 35 && Pc1C(20) == 27
    ensures Pc1C(21) == 19 && Pc1C(22) == 11 && Pc1C(23) == 3 && Pc1C(24) == 60 && Pc1C(25) == 52 && Pc1C(26) == 44 && Pc1C(27) == 36
  {
  }

  lemma FirstD()
    ensures Pc1D(0) == 63 && Pc1D(1) == 55 && Pc1D(2) == 47 && Pc1D(3) == 39 && Pc1D(4) == 31 && Pc1D(5) == 23 && Pc1D(6) == 15
    ensures Pc1D(7) == 7 && Pc1D(8) == 62 && Pc1D(9) == 54 && Pc1D(10) == 46 && Pc1D(11) == 38 && Pc1D(12) == 30 && Pc1D(13) == 22
    ensures Pc1D(14) == 14 && Pc1D(15) == 6 && Pc1D(16) == 61 && Pc1D(17) == 53 && Pc1D(18) == 45 && Pc1D(19) == 37 && Pc1D(20) == 29
    ensures Pc1D(21) == 21 && Pc1D(22) == 13 && Pc1D(23) == 5 && Pc1D(24) == 28 && Pc1D(25) == 20 && Pc1D(26) == 12 && Pc1D(27) == 4
  {
  }

  lemma RegisterCAt(k: seq<Hex>, c: seq<Hex>, i: nat, q: nat)
    requires RegisterC(k, c) && i < 7 && q < 4
    ensures var p := Pc1C(4 * i + q) - 1; Bit(c[i], q) == Bit(k[p / 4], p % 4)
  {
    hide Pc1C;
    FirstC();
  }

  lemma RegisterDAt(k: seq<Hex>, d: seq<Hex>, i: nat, q: nat)
    requires RegisterD(k, d) && i < 7 && q < 4
    ensures var p := Pc1D(4 * i + q) - 1; Bit(d[i], q) == Bit(k[p / 4], p % 4)
  {
    hide Pc1D;
    FirstD();
  }

  lemma RegisterCIs(k: seq<Hex>, c: seq<Hex>)
    requires RegisterC(k, c) && |k| == 16 && |c| == 7
    ensures IsC(FromHex(k), c, 0)
  {
    hide FromHex, RegisterC, Pc1C, Bit;
    forall j | 0 <= j < 28 ensures FromHex(c)[j] == FromHex(k)[Pc1C(j) - 1] {
      var i, q, p := j / 4, j % 4, Pc1C(j) - 1;
      assert j == 4 * i + q && p == 4 * (p / 4) + p % 4;
      RegisterCAt(k, c, i, q);
      HexAt(c, i, q);
      HexAt(k, p / 4, p % 4);
    }
  }

  lemma RegisterDIs(k: seq<Hex>, d: seq<Hex>)
    requires RegisterD(k, d) && |k| == 16 && |d| == 7
    ensures IsD(FromHex(k), d, 0)
  {
    hide FromHex, RegisterD, Pc1D, Bit;
    forall j | 0 <= j < 28 ensures FromHex(d)[j] == FromHex(k)[Pc1D(j) - 1] {
      var i, q, p := j / 4, j % 4, Pc1D(j) - 1;
      assert j == 4 * i + q && p == 4 * (p / 4) + p % 4;
      RegisterDAt(k, d, i, q);
      HexAt(d, i, q);
      HexAt(k, p / 4, p % 4);
    }
  }

  predicate LoadsL(b: seq<Hex>, l: seq<Hex>) {
    && |b| == 16 && |l| == 8
    && l[0] == Hex(b[14].b, b[12].b, b[10].b, b[8].b)
    && l[1] == Hex(b[6].b, b[4].b, b[2].b, b[0].b)
    && l[2] == Hex(b[14].d, b[12].d, b[10].d, b[8].d)
    && l[3] == Hex(b[6].d, b[4].d, b[2].d, b[0].d)
    && l[4] == Hex(b[15].b, b[13].b, b[11].b, b[9].b)
    && l[5] == Hex(b[7].b, b[5].b, b[3].b, b[1].b)
    && l[6] == Hex(b[15].d, b[13].d, b[11].d, b[9].d)
    && l[7] == Hex(b[7].d, b[5].d, b[3].d, b[1].d)
  }

  predicate LoadsR(b: seq<Hex>, r: seq<Hex>) {
    && |b| == 16 && |r| == 8
    && r[0] == Hex(b[14].a, b[12].a, b[10].a, b[8].a)
    && r[1] == Hex(b[6].a, b[4].a, b[2].a, b[0].a)
    && r[2] == Hex(b[14].c, b[12].c, b[10].c, b[8].c)
    && r[3] == Hex(b[6].c, b[4].c, b[2].c, b[0].c)
    && r[4] == Hex(b[15].a, b[13].a, b[11].a, b[9].a)
    && r[5] == Hex(b[7].a, b[5].a, b[3].a, b[1].a)
    && r[6] == Hex(b[15].c, b[13].c, b[11].c, b[9].c)
    && r[7] == Hex(b[7].c, b[5].c, b[3].c, b[1].c)
  }

  lemma Initial0()
    ensures Ip(0) == 58 && Ip(1) == 50 && Ip(2) == 42 && Ip(3) == 34 && Ip(4) == 26 && Ip(5) == 18 && Ip(6) == 10 && Ip(7) == 2
    ensures Ip(8) == 60 && Ip(9) == 52 && Ip(10) == 44 && Ip(11) == 36 && Ip(12) == 28 && Ip(13) == 20 && Ip(14) == 12 && Ip(15) == 4
  {
  }

  lemma Initial1()
    ensures Ip(16) == 62 && Ip(17) == 54 && Ip(18) == 46 && Ip(19) == 38 && Ip(20) == 30 && Ip(21) == 22 && Ip(22) == 14 && Ip(23) == 6
    ensures Ip(24) == 64 && Ip(25) == 56 && Ip(26) == 48 && Ip(27) == 40 && Ip(28) == 32 && Ip(29) == 24 && Ip(30) == 16 && Ip(31) == 8
  {
  }

  lemma Initial2()
    ensures Ip(32) == 57 && Ip(33) == 49 && Ip(34) == 41 && Ip(35) == 33 && Ip(36) == 25 && Ip(37) == 17 && Ip(38) == 9 && Ip(39) == 1
    ensures Ip(40) == 59 && Ip(41) == 51 && Ip(42) == 43 && Ip(43) == 35 && Ip(44) == 27 && Ip(45) == 19 && Ip(46) == 11 && Ip(47) == 3
  {
  }

  lemma Initial3()
    ensures Ip(48) == 61 && Ip(49) == 53 && Ip(50) == 45 && Ip(51) == 37 && Ip(52) == 29 && Ip(53) == 21 && Ip(54) == 13 && Ip(55) == 5
    ensures Ip(56) == 63 && Ip(57) == 55 && Ip(58) == 47 && Ip(59) == 39 && Ip(60) == 31 && Ip(61) == 23 && Ip(62) == 15 && Ip(63) == 7
  {
  }

  lemma LoadsLAt0(b: seq<Hex>, l: seq<Hex>, i: nat, q: nat)
    requires LoadsL(b, l) && i < 4 && q < 4
    ensures var p := Ip(4 * i + q) - 1; Bit(l[i], q) == Bit(b[p / 4], p % 4)
  {
    hide Ip;
    Initial0();
  }

  lemma LoadsLAt1(b: seq<Hex>, l: seq<Hex>, i: nat, q: nat)
    requires LoadsL(b, l) && 4 <= i < 8 && q < 4
    ensures var p := Ip(4 * i + q) - 1; Bit(l[i], q) == Bit(b[p / 4], p % 4)
  {
    hide Ip;
    Initial1();
  }

  lemma LoadsRAt0(b: seq<Hex>, r: seq<Hex>, i: nat, q: nat)
    requires LoadsR(b, r) && i < 4 && q < 4
    ensures var p := Ip(4 * i + q + 32) - 1; Bit(r[i], q) == Bit(b[p / 4], p % 4)
  {
    hide Ip;
    Initial2();
  }

  lemma LoadsRAt1(b: seq<Hex>, r: seq<Hex>, i: nat, q: nat)
    requires LoadsR(b, r) && 4 <= i < 8 && q < 4
    ensures var p := Ip(4 * i + q + 32) - 1; Bit(r[i], q) == Bit(b[p / 4], p % 4)
  {
    hide Ip;
    Initial3();
  }

  lemma LoadsIs(b: seq<Hex>, l: seq<Hex>, r: seq<Hex>)
    requires LoadsL(b, l) && LoadsR(b, r) && |b| == 16 && |l| == |r| == 8
    ensures Load(FromHex(b)) == Halves(FromHex(l), FromHex(r))
  {
    hide FromHex, LoadsL, LoadsR, Ip, Bit;
    var h := Load(FromHex(b));
    forall j | 0 <= j < 32 ensures h.l[j] == FromHex(l)[j] {
      var i, q, p := j / 4, j % 4, Ip(j) - 1;
      assert j == 4 * i + q && p == 4 * (p / 4) + p % 4;
      if i < 4 { LoadsLAt0(b, l, i, q); } else { LoadsLAt1(b, l, i, q); }
      HexAt(l, i, q);
      HexAt(b, p / 4, p % 4);
    }
    forall j | 0 <= j < 32 ensures h.r[j] == FromHex(r)[j] {
      var i, q, p := j / 4, j % 4, Ip(j + 32) - 1;
      assert j == 4 * i + q && p == 4 * (p / 4) + p % 4;
      if i < 4 { LoadsRAt0(b, r, i, q); } else { LoadsRAt1(b, r, i, q); }
      HexAt(r, i, q);
      HexAt(b, p / 4, p % 4);
    }
    assert h.l == FromHex(l) && h.r == FromHex(r);
  }

  // ----- from round to round -----

  predicate KeyWork(c: seq<Hex>, d: seq<Hex>, n: nat, c': seq<Hex>, d': seq<Hex>, kd: seq<Hex>) {
    Turn(c, n, c') && Turn(d, n, d') && PicksC(c', kd) && PicksD(d', kd)
  }

  /** After n rounds on this block with this key: the registers and both halves. */
  ghost predicate Reached(k: seq<Hex>, b: seq<Hex>, n: nat, c: seq<Hex>, d: seq<Hex>, l: seq<Hex>, r: seq<Hex>) {
    && |k| == |b| == 16 && n <= 16
    && IsC(FromHex(k), c, Before(n)) && IsD(FromHex(k), d, Before(n))
    && Rounds(Unsalted(), Schedule(FromHex(k)), false, Load(FromHex(b)), n) == Halves(FromHex(l), FromHex(r))
  }

  function Before(n: nat): nat
    requires n <= 16
  {
    if n == 0 then 0 else Turned(n - 1)
  }

  lemma NextReached(k: seq<Hex>, b: seq<Hex>, n: nat, c: seq<Hex>, d: seq<Hex>, l: seq<Hex>, r: seq<Hex>,
        c': seq<Hex>, d': seq<Hex>, kd: seq<Hex>, nd: seq<Hex>)
    requires n < 16 && Reached(k, b, n, c, d, l, r) && KeyWork(c, d, Shifts(n), c', d', kd) && |kd| == 12
    requires |l| == |r| == 8 && Round(Unsalted(), FromHex(kd), Halves(FromHex(l), FromHex(r))) == Halves(FromHex(r), FromHex(nd))
    ensures var m := n + 1; Reached(k, b, m, c', d', r, nd)
  {
    hide IsC, IsD, Turn, PicksC, PicksD, FromHex, Schedule, Round, Rounds, Load, Shifts;
    TurnC(FromHex(k), c, Before(n), Shifts(n), c');
    TurnD(FromHex(k), d, Before(n), Shifts(n), d');
    assert Turned(n) == Before(n) + Shifts(n);
    KeyFrom(FromHex(k), n, c', d', kd);
    RoundsNext(Unsalted(), Schedule(FromHex(k)), false, Load(FromHex(b)), n + 1);
  }

  lemma FirstReached(k: seq<Hex>, b: seq<Hex>, c: seq<Hex>, d: seq<Hex>, l: seq<Hex>, r: seq<Hex>)
    requires RegisterC(k, c) && RegisterD(k, d) && LoadsL(b, l) && LoadsR(b, r)
    requires |k| == |b| == 16 && |c| == |d| == 7 && |l| == |r| == 8
    ensures Reached(k, b, 0, c, d, l, r)
  {
    hide IsC, IsD, RegisterC, RegisterD, LoadsL, LoadsR, FromHex, Schedule, Rounds, Load;
    RegisterCIs(k, c);
    RegisterDIs(k, d);
    LoadsIs(b, l, r);
    RoundsNone(Unsalted(), Schedule(FromHex(k)), false, Load(FromHex(b)));
  }

  lemma LastReached(k: seq<Hex>, b: seq<Hex>, c: seq<Hex>, d: seq<Hex>, l: seq<Hex>, r: seq<Hex>, e: seq<Hex>)
    requires Reached(k, b, 16, c, d, l, r) && LoadsL(e, r) && LoadsR(e, l) && |e| == 16 && |l| == |r| == 8
    ensures Encrypt(Unsalted(), Schedule(FromHex(k)), false, FromHex(b)) == FromHex(e)
  {
    hide IsC, IsD, LoadsL, LoadsR, FromHex, Schedule, Rounds, Load, Store;
    LoadsIs(e, r, l);
    StoreLoad(FromHex(e));
  }

  // ----- the known answer: 133457799BBCDFF1 and 0123456789ABCDEF give 85E813540F0AB405 -----

  const KEY: seq<Hex> := [H1, H3, H3, H4, H5, H7, H7, H9, H9, HB, HB, HC, HD, HF, HF, H1]
  const PLAIN: seq<Hex> := [H0, H1, H2, H3, H4, H5, H6, H7, H8, H9, HA, HB, HC, HD, HE, HF]
  const CODE: seq<Hex> := [H8, H5, HE, H8, H1, H3, H5, H4, H0, HF, H0, HA, HB, H4, H0, H5]

  lemma Shifted()
    ensures Shifts(0) == 1 && Shifts(1) == 1 && Shifts(2) == 2 && Shifts(3) == 2 && Shifts(4) == 2 && Shifts(5) == 2 && Shifts(6) == 2 && Shifts(7) == 2
    ensures Shifts(8) == 1 && Shifts(9) == 2 && Shifts(10) == 2 && Shifts(11) == 2 && Shifts(12) == 2 && Shifts(13) == 2 && Shifts(14) == 2 && Shifts(15) == 1
  {
  }

  lemma After0()
    ensures Reached(KEY, PLAIN, 0, [HF, H0, HC, HC, HA, HA, HF], [H5, H5, H6, H6, H7, H8, HF],
                    [HC, HC, H0, H0, HC, HC, HF, HF], [HF, H0, HA, HA, HF, H0, HA, HA])
  {
    hide Reached, RegisterC, RegisterD, LoadsL, LoadsR;
    Start();
    FirstReached(KEY, PLAIN, [HF, H0, HC, HC, HA, HA, HF], [H5, H5, H6, H6, H7, H8, HF],
                 [HC, HC, H0, H0, HC, HC, HF, HF], [HF, H0, HA, HA, HF, H0, HA, HA]);
  }

  lemma Start()
    ensures RegisterC(KEY, [HF, H0, HC, HC, HA, HA, HF])
    ensures RegisterD(KEY, [H5, H5, H6, H6, H7, H8, HF])
    ensures LoadsL(PLAIN, [HC, HC, H0, H0, HC, HC, HF, HF]) && LoadsR(PLAIN, [HF, H0, HA, HA, HF, H0, HA, HA])
  {
  }

  lemma After1()
    ensures Reached(KEY, PLAIN, 1, [HE, H1, H9, H9, H5, H5, HF], [HA, HA, HC, HC, HF, H1, HE],
                    [HF, H0, HA, HA, HF, H0, HA, HA], [HE, HF, H4, HA, H6, H5, H4, H4])
  {
    hide Reached, KeyWork, Boxes, Mixes, Round, Shifts;
    After0();
    Shifted();
    Keys1();
    Boxes1A();
    Boxes1B();
    Mixes1();
    RoundFrom([H1, HB, H0, H2, HE, HF, HF, HC, H7, H0, H7, H2], [HC, HC, H0, H0, HC, HC, HF, HF], [HF, H0, HA, HA, HF, H0, HA, HA],
              [H5, HC, H8, H2, HB, H5, H9, H7], [HE, HF, H4, HA, H6, H5, H4, H4], [12, 24, 15, 45, 48, 35, 10, 51]);
    NextReached(KEY, PLAIN, 0, [HF, H0, HC, HC, HA, HA, HF], [H5, H5, H6, H6, H7, H8, HF],
                [HC, HC, H0, H0, HC, HC, HF, HF], [HF, H0, HA, HA, HF, H0, HA, HA],
                [HE, H1, H9, H9, H5, H5, HF], [HA, HA, HC, HC, HF, H1, HE],
                [H1, HB, H0, H2, HE, HF, HF, HC, H7, H0, H7, H2], [HE, HF, H4, HA, H6, H5, H4, H4]);
  }

  lemma Keys1()
    ensures KeyWork([HF, H0, HC, HC, HA, HA, HF], [H5, H5, H6, H6, H7, H8, HF], 1,
                    [HE, H1, H9, H9, H5, H5, HF], [HA, HA, HC, HC, HF, H1, HE],
                    [H1, HB, H0, H2, HE, HF, HF, HC, H7, H0, H7, H2])
  {
  }

  lemma Boxes1A()
    ensures Boxes(0, HA, HF, H0, HA, H1, HB, H0, 12, 24, H5, HC)
    ensures Boxes(1, H0, HA, HA, HF, H2, HE, HF, 15, 45, H8, H2)
  {
  }

  lemma Boxes1B()
    ensures Boxes(2, HA, HF, H0, HA, HF, HC, H7, 48, 35, HB, H5)
    ensures Boxes(3, H0, HA, HA, HF, H0, H7, H2, 10, 51, H9, H7)
  {
  }

  lemma Mixes1()
    ensures Mixes([HC, HC, H0, H0, HC, HC, HF, HF], [H5, HC, H8, H2, HB, H5, H9, H7], [HE, HF, H4, HA, H6, H5, H4, H4])
  {
  }

  lemma After2()
    ensures Reached(KEY, PLAIN, 2, [HC, H3, H3, H2, HA, HB, HF], [H5, H5, H9, H9, HE, H3, HD],
                    [HE, HF, H4, HA, H6, H5, H4, H4], [HC, HC, H0, H1, H7, H7, H0, H9])
  {
    hide Reached, KeyWork, Boxes, Mixes, Round, Shifts;
    After1();
    Shifted();
    Keys2();
    Boxes2A();
    Boxes2B();
    Mixes2();
    RoundFrom([H7, H9, HA, HE, HD, H9, HD, HB, HC, H9, HE, H5], [HF, H0, HA, HA, HF, H0, HA, HA], [HE, HF, H4, HA, H6, H5, H4, H4],
              [HF, H8, HD, H0, H3, HA, HA, HE], [HC, HC, H0, H1, H7, H7, H0, H9], [17, 2, 9, 22, 45, 43, 23, 38]);
    NextReached(KEY, PLAIN, 1, [HE, H1, H9, H9, H5, H5, HF], [HA, HA, HC, HC, HF, H1, HE],
                [HF, H0, HA, HA, HF, H0, HA, HA], [HE, HF, H4, HA, H6, H5, H4, H4],
                [HC, H3, H3, H2, HA, HB, HF], [H5, H5, H9, H9, HE, H3, HD],
                [H7, H9, HA, HE, HD, H9, HD, HB, HC, H9, HE, H5], [HC, HC, H0, H1, H7, H7, H0, H9]);
  }

  lemma Keys2()
    ensures KeyWork([HE, H1, H9, H9, H5, H5, HF], [HA, HA, HC, HC, HF, H1, HE], 1,
                    [HC, H3, H3, H2, HA, HB, HF], [H5, H5, H9, H9, HE, H3, HD],
                    [H7, H9, HA, HE, HD, H9, HD, HB, HC, H9, HE, H5])
  {
  }

  lemma Boxes2A()
    ensures Boxes(0, H4, HE, HF, H4, H7, H9, HA, 17, 2, HF, H8)
    ensures Boxes(1, HF, H4, HA, H6, HE, HD, H9, 9, 22, HD, H0)
  {
  }

  lemma Boxes2B()
    ensures Boxes(2, HA, H6, H5, H4, HD, HB, HC, 45, 43, H3, HA)
    ensures Boxes(3, H5, H4, H4, HE, H9, HE, H5, 23, 38, HA, HE)
  {
  }

  lemma Mixes2()
    ensures Mixes([HF, H0, HA, HA, HF, H0, HA, HA], [HF, H8, HD, H0, H3, HA, HA, HE], [HC, HC, H0, H1, H7, H7, H0, H9])
  {
  }

  lemma After3()
    ensures Reached(KEY, PLAIN, 3, [H0, HC, HC, HA, HA, HF, HF], [H5, H6, H6, H7, H8, HF, H5],
                    [HC, HC, H0, H1, H7, H7, H0, H9], [HA, H2, H5, HC, H0, HB, HF, H4])
  {
    hide Reached, KeyWork, Boxes, Mixes, Round, Shifts;
    After2();
    Shifted();
    Keys3();
    Boxes3A();
    Boxes3B();
    Mixes3();
    RoundFrom([H5, H5, HF, HC, H8, HA, H4, H2, HC, HF, H9, H9], [HE, HF, H4, HA, H6, H5, H4, H4], [HC, HC, H0, H1, H7, H7, H0, H9],
              [H2, H7, H1, H0, HE, H1, H6, HF], [HA, H2, H5, HC, H0, HB, HF, H4], [38, 19, 41, 4, 47, 1, 31, 5]);
    NextReached(KEY, PLAIN, 2, [HC, H3, H3, H2, HA, HB, HF], [H5, H5, H9, H9, HE, H3, HD],
                [HE, HF, H4, HA, H6, H5, H4, H4], [HC, HC, H0, H1, H7, H7, H0, H9],
                [H0, HC, HC, HA, HA, HF, HF], [H5, H6, H6, H7, H8, HF, H5],
                [H5, H5, HF, HC, H8, HA, H4, H2, HC, HF, H9, H9], [HA, H2, H5, HC, H0, HB, HF, H4]);
  }

  lemma Keys3()
    ensures KeyWork([HC, H3, H3, H2, HA, HB, HF], [H5, H5, H9, H9, HE, H3, HD], 2,
                    [H0, HC, HC, HA, HA, HF, HF], [H5, H6, H6, H7, H8, HF, H5],
                    [H5, H5, HF, HC, H8, HA, H4, H2, HC, HF, H9, H9])
  {
  }

  lemma Boxes3A()
    ensures Boxes(0, H9, HC, HC, H0, H5, H5, HF, 38, 19, H2, H7)
    ensures Boxes(1, HC, H0, H1, H7, HC, H8, HA, 41, 4, H1, H0)
  {
  }

  lemma Boxes3B()
    ensures Boxes(2, H1, H7, H7, H0, H4, H2, HC, 47, 1, HE, H1)
    ensures Boxes(3, H7, H0, H9, HC, HF, H9, H9, 31, 5, H6, HF)
  {
  }

  lemma Mixes3()
    ensures Mixes([HE, HF, H4, HA, H6, H5, H4, H4], [H2, H7, H1, H0, HE, H1, H6, HF], [HA, H2, H5, HC, H0, HB, HF, H4])
  {
  }

  lemma After4()
    ensures Reached(KEY, PLAIN, 4, [H3, H3, H2, HA, HB, HF, HC], [H5, H9, H9, HE, H3, HD, H5],
                    [HA, H2, H5, HC, H0, HB, HF, H4], [H7, H7, H2, H2, H0, H0, H4, H5])
  {
    hide Reached, KeyWork, Boxes, Mixes, Round, Shifts;
    After3();
    Shifted();
    Keys4();
    Boxes4A();
    Boxes4B();
    Mixes4();
    RoundFrom([H7, H2, HA, HD, HD, H6, HD, HB, H3, H5, H1, HD], [HC, HC, H0, H1, H7, H7, H0, H9], [HA, H2, H5, HC, H0, HB, HF, H4],
              [H2, H1, HE, HD, H9, HF, H3, HA], [H7, H7, H2, H2, H0, H0, H4, H5], [4, 39, 46, 39, 59, 34, 37, 42]);
    NextReached(KEY, PLAIN, 3, [H0, HC, HC, HA, HA, HF, HF], [H5, H6, H6, H7, H8, HF, H5],
                [HC, HC, H0, H1, H7, H7, H0, H9], [HA, H2, H5, HC, H0, HB, HF, H4],
                [H3, H3, H2, HA, HB, HF, HC], [H5, H9, H9, HE, H3, HD, H5],
                [H7, H2, HA, HD, HD, H6, HD, HB, H3, H5, H1, HD], [H7, H7, H2, H2, H0, H0, H4, H5]);
  }

  lemma Keys4()
    ensures KeyWork([H0, HC, HC, HA, HA, HF, HF], [H5, H6, H6, H7, H8, HF, H5], 2,
                    [H3, H3, H2, HA, HB, HF, HC], [H5, H9, H9, HE, H3, HD, H5],
                    [H7, H2, HA, HD, HD, H6, HD, HB, H3, H5, H1, HD])
  {
  }

  lemma Boxes4A()
    ensures Boxes(0, H4, HA, H2, H5, H7, H2, HA, 4, 39, H2, H1)
    ensures Boxes(1, H2, H5, HC, H0, HD, HD, H6, 46, 39, HE, HD)
  {
  }

  lemma Boxes4B()
    ensures Boxes(2, HC, H0, HB, HF, HD, HB, H3, 59, 34, H9, HF)
    ensures Boxes(3, HB, HF, H4, HA, H5, H1, HD, 37, 42, H3, HA)
  {
  }

  lemma Mixes4()
    ensures Mixes([HC, HC, H0, H1, H7, H7, H0, H9], [H2, H1, HE, HD, H9, HF, H3, HA], [H7, H7, H2, H2, H0, H0, H4, H5])
  {
  }

  lemma After5()
    ensures Reached(KEY, PLAIN, 5, [HC, HC, HA, HA, HF, HF, H0], [H6, H6, H7, H8, HF, H5, H5],
                    [H7, H7, H2, H2, H0, H0, H4, H5], [H8, HA, H4, HF, HA, H6, H3, H7])
  {
    hide Reached, KeyWork, Boxes, Mixes, Round, Shifts;
    After4();
    Shifted();
    Keys5();
    Boxes5A();
    Boxes5B();
    Mixes5();
    RoundFrom([H7, HC, HE, HC, H0, H7, HE, HB, H5, H3, HA, H8], [HA, H2, H5, HC, H0, HB, HF, H4], [H7, H7, H2, H2, H0, H0, H4, H5],
              [H5, H0, HC, H8, H3, H1, HE, HB], [H8, HA, H4, HF, HA, H6, H3, H7], [56, 32, 10, 17, 45, 58, 3, 33]);
    NextReached(KEY, PLAIN, 4, [H3, H3, H2, HA, HB, HF, HC], [H5, H9, H9, HE, H3, HD, H5],
                [HA, H2, H5, HC, H0, HB, HF, H4], [H7, H7, H2, H2, H0, H0, H4, H5],
                [HC, HC, HA, HA, HF, HF, H0], [H6, H6, H7, H8, HF, H5, H5],
                [H7, HC, HE, HC, H0, H7, HE, HB, H5, H3, HA, H8], [H8, HA, H4, HF, HA, H6, H3, H7]);
  }

  lemma Keys5()
    ensures KeyWork([H3, H3, H2, HA, HB, HF, HC], [H5, H9, H9, HE, H3, HD, H5], 2,
                    [HC, HC, HA, HA, HF, HF, H0], [H6, H6, H7, H8, HF, H5, H5],
                    [H7, HC, HE, HC, H0, H7, HE, HB, H5, H3, HA, H8])
  {
  }

  lemma Boxes5A()
    ensures Boxes(0, H5, H7, H7, H2, H7, HC, HE, 56, 32, H5, H0)
    ensures Boxes(1, H7, H2, H2, H0, HC, H0, H7, 10, 17, HC, H8)
  {
  }

  lemma Boxes5B()
    ensures Boxes(2, H2, H0, H0, H4, HE, HB, H5, 45, 58, H3, H1)
    ensures Boxes(3, H0, H4, H5, H7, H3, HA, H8, 3, 33, HE, HB)
  {
  }

  lemma Mixes5()
    ensures Mixes([HA, H2, H5, HC, H0, HB, HF, H4], [H5, H0, HC, H8, H3, H1, HE, HB], [H8, HA, H4, HF, HA, H6, H3, H7])
  {
  }

  lemma After6()
    ensures Reached(KEY, PLAIN, 6, [H3, H2, HA, HB, HF, HC, H3], [H9, H9, HE, H3, HD, H5, H5],
                    [H8, HA, H4, HF, HA, H6, H3, H7], [HE, H9, H6, H7, HC, HD, H6, H9])
  {
    hide Reached, KeyWork, Boxes, Mixes, Round, Shifts;
    After5();
    Shifted();
    Keys6();
    Boxes6A();
    Boxes6B();
    Mixes6();
    RoundFrom([H6, H3, HA, H5, H3, HE, H5, H0, H7, HB, H2, HF], [H7, H7, H2, H2, H0, H0, H4, H5], [H8, HA, H4, HF, HA, H6, H3, H7],
              [H4, H1, HF, H3, H4, HC, H3, HD], [HE, H9, H6, H7, HC, HD, H6, H9], [52, 39, 30, 48, 32, 21, 37, 0]);
    NextReached(KEY, PLAIN, 5, [HC, HC, HA, HA, HF, HF, H0], [H6, H6, H7, H8, HF, H5, H5],
                [H7, H7, H2, H2, H0, H0, H4, H5], [H8, HA, H4, HF, HA, H6, H3, H7],
                [H3, H2, HA, HB, HF, HC, H3], [H9, H9, HE, H3, HD, H5, H5],
                [H6, H3, HA, H5, H3, HE, H5, H0, H7, HB, H2, HF], [HE, H9, H6, H7, HC, HD, H6, H9]);
  }

  lemma Keys6()
    ensures KeyWork([HC, HC, HA, HA, HF, HF, H0], [H6, H6, H7, H8, HF, H5, H5], 2,
                    [H3, H2, HA, HB, HF, HC, H3], [H9, H9, HE, H3, HD, H5, H5],
                    [H6, H3, HA, H5, H3, HE, H5, H0, H7, HB, H2, HF])
  {
  }

  lemma Boxes6A()
    ensures Boxes(0, H7, H8, HA, H4, H6, H3, HA, 52, 39, H4, H1)
    ensures Boxes(1, HA, H4, HF, HA, H5, H3, HE, 30, 48, HF, H3)
  {
  }

  lemma Boxes6B()
    ensures Boxes(2, HF, HA, H6, H3, H5, H0, H7, 32, 21, H4, HC)
    ensures Boxes(3, H6, H3, H7, H8, HB, H2, HF, 37, 0, H3, HD)
  {
  }

  lemma Mixes6()
    ensures Mixes([H7, H7, H2, H2, H0, H0, H4, H5], [H4, H1, HF, H3, H4, HC, H3, HD], [HE, H9, H6, H7, HC, HD, H6, H9])
  {
  }

  lemma After7()
    ensures Reached(KEY, PLAIN, 7, [HC, HA, HA, HF, HF, H0, HC], [H6, H7, H8, HF, H5, H5, H6],
                    [HE, H9, H6, H7, HC, HD, H6, H9], [H0, H6, H4, HA, HB, HA, H1, H0])
  {
    hide Reached, KeyWork, Boxes, Mixes, Round, Shifts;
    After6();
    Shifted();
    Keys7();
    Boxes7A();
    Boxes7B();
    Mixes7();
    RoundFrom([HE, HC, H8, H4, HB, H7, HF, H6, H1, H8, HB, HC], [H8, HA, H4, HF, HA, H6, H3, H7], [HE, H9, H6, H7, HC, HD, H6, H9],
              [H1, H0, H7, H5, H4, H0, HA, HD], [H0, H6, H4, HA, HB, HA, H1, H0], [3, 13, 47, 44, 2, 61, 23, 55]);
    NextReached(KEY, PLAIN, 6, [H3, H2, HA, HB, HF, HC, H3], [H9, H9, HE, H3, HD, H5, H5],
                [H8, HA, H4, HF, HA, H6, H3, H7], [HE, H9, H6, H7, HC, HD, H6, H9],
                [HC, HA, HA, HF, HF, H0, HC], [H6, H7, H8, HF, H5, H5, H6],
                [HE, HC, H8, H4, HB, H7, HF, H6, H1, H8, HB, HC], [H0, H6, H4, HA, HB, HA, H1, H0]);
  }

  lemma Keys7()
    ensures KeyWork([H3, H2, HA, HB, HF, HC, H3], [H9, H9, HE, H3, HD, H5, H5], 2,
                    [HC, HA, HA, HF, HF, H0, HC], [H6, H7, H8, HF, H5, H5, H6],
                    [HE, HC, H8, H4, HB, H7, HF, H6, H1, H8, HB, HC])
  {
  }

  lemma Boxes7A()
    ensures Boxes(0, H9, HE, H9, H6, HE, HC, H8, 3, 13, H1, H0)
    ensures Boxes(1, H9, H6, H7, HC, H4, HB, H7, 47, 44, H7, H5)
  {
  }

  lemma Boxes7B()
    ensures Boxes(2, H7, HC, HD, H6, HF, H6, H1, 2, 61, H4, H0)
    ensures Boxes(3, HD, H6, H9, HE, H8, HB, HC, 23, 55, HA, HD)
  {
  }

  lemma Mixes7()
    ensures Mixes([H8, HA, H4, HF, HA, H6, H3, H7], [H1, H0, H7, H5, H4, H0, HA, HD], [H0, H6, H4, HA, HB, HA, H1, H0])
  {
  }

  lemma After8()
    ensures Reached(KEY, PLAIN, 8, [H2, HA, HB, HF, HC, H3, H3], [H9, HE, H3, HD, H5, H5, H9],
                    [H0, H6, H4, HA, HB, HA, H1, H0], [HD, H5, H6, H9, H4, HB, H9, H0])
  {
    hide Reached, KeyWork, Boxes, Mixes, Round, Shifts;
    After7();
    Shifted();
    Keys8();
    Boxes8A();
    Boxes8B();
    Mixes8();
    RoundFrom([HF, H7, H8, HA, H3, HA, HC, H1, H3, HB, HF, HB], [HE, H9, H6, H7, HC, HD, H6, H9], [H0, H6, H4, HA, HB, HA, H1, H0],
              [H6, HC, H1, H8, H7, HC, HA, HE], [HD, H5, H6, H9, H4, HB, H9, H0], [62, 42, 48, 55, 51, 51, 54, 29]);
    NextReached(KEY, PLAIN, 7, [HC, HA, HA, HF, HF, H0, HC], [H6, H7, H8, HF, H5, H5, H6],
                [HE, H9, H6, H7, HC, HD, H6, H9], [H0, H6, H4, HA, HB, HA, H1, H0],
                [H2, HA, HB, HF, HC, H3, H3], [H9, HE, H3, HD, H5, H5, H9],
                [HF, H7, H8, HA, H3, HA, HC, H1, H3, HB, HF, HB], [HD, H5, H6, H9, H4, HB, H9, H0]);
  }

  lemma Keys8()
    ensures KeyWork([HC, HA, HA, HF, HF, H0, HC], [H6, H7, H8, HF, H5, H5, H6], 2,
                    [H2, HA, HB, HF, HC, H3, H3], [H9, HE, H3, HD, H5, H5, H9],
                    [HF, H7, H8, HA, H3, HA, HC, H1, H3, HB, HF, HB])
  {
  }

  lemma Boxes8A()
    ensures Boxes(0, H0, H0, H6, H4, HF, H7, H8, 62, 42, H6, HC)
    ensures Boxes(1, H6, H4, HA, HB, HA, H3, HA, 48, 55, H1, H8)
  {
  }

  lemma Boxes8B()
    ensures Boxes(2, HA, HB, HA, H1, HC, H1, H3, 51, 51, H7, HC)
    ensures Boxes(3, HA, H1, H0, H0, HB, HF, HB, 54, 29, HA, HE)
  {
  }

  lemma Mixes8()
    ensures Mixes([HE, H9, H6, H7, HC, HD, H6, H9], [H6, HC, H1, H8, H7, HC, HA, HE], [HD, H5, H6, H9, H4, HB, H9, H0])
  {
  }

  lemma After9()
    ensures Reached(KEY, PLAIN, 9, [H5, H5, H7, HF, H8, H6, H6], [H3, HC, H7, HA, HA, HB, H3],
                    [HD, H5, H6, H9, H4, HB, H9, H0], [H2, H4, H7, HC, HC, H6, H7, HA])
  {
    hide Reached, KeyWork, Boxes, Mixes, Round, Shifts;
    After8();
    Shifted();
    Keys9();
    Boxes9A();
    Boxes9B();
    Mixes9();
    RoundFrom([HE, H0, HD, HB, HE, HB, HE, HD, HE, H7, H8, H1], [H0, H6, H4, HA, HB, HA, H1, H0], [HD, H5, H6, H9, H4, HB, H9, H0],
              [H1, H1, H0, HC, H5, H7, H7, H7], [H2, H4, H7, HC, HC, H6, H7, HA], [33, 51, 1, 60, 9, 20, 38, 32]);
    NextReached(KEY, PLAIN, 8, [H2, HA, HB, HF, HC, H3, H3], [H9, HE, H3, HD, H5, H5, H9],
                [H0, H6, H4, HA, HB, HA, H1, H0], [HD, H5, H6, H9, H4, HB, H9, H0],
                [H5, H5, H7, HF, H8, H6, H6], [H3, HC, H7, HA, HA, HB, H3],
                [HE, H0, HD, HB, HE, HB, HE, HD, HE, H7, H8, H1], [H2, H4, H7, HC, HC, H6, H7, HA]);
  }

  lemma Keys9()
    ensures KeyWork([H2, HA, HB, HF, HC, H3, H3], [H9, HE, H3, HD, H5, H5, H9], 1,
                    [H5, H5, H7, HF, H8, H6, H6], [H3, HC, H7, HA, HA, HB, H3],
                    [HE, H0, HD, HB, HE, HB, HE, HD, HE, H7, H8, H1])
  {
  }

  lemma Boxes9A()
    ensures Boxes(0, H0, HD, H5, H6, HE, H0, HD, 33, 51, H1, H1)
    ensures Boxes(1, H5, H6, H9, H4, HB, HE, HB, 1, 60, H0, HC)
  {
  }

  lemma Boxes9B()
    ensures Boxes(2, H9, H4, HB, H9, HE, HD, HE, 9, 20, H5, H7)
    ensures Boxes(3, HB, H9, H0, HD, H7, H8, H1, 38, 32, H7, H7)
  {
  }

  lemma Mixes9()
    ensures Mixes([H0, H6, H4, HA, HB, HA, H1, H0], [H1, H1, H0, HC, H5, H7, H7, H7], [H2, H4, H7, HC, HC, H6, H7, HA])
  {
  }

  lemma After10()
    ensures Reached(KEY, PLAIN, 10, [H5, H5, HF, HE, H1, H9, H9], [HF, H1, HE, HA, HA, HC, HC],
                    [H2, H4, H7, HC, HC, H6, H7, HA], [HB, H7, HD, H5, HD, H7, HB, H2])
  {
    hide Reached, KeyWork, Boxes, Mixes, Round, Shifts;
    After9();
    Shifted();
    Keys10();
    Boxes10A();
    Boxes10B();
    Mixes10();
    RoundFrom([HB, H1, HF, H3, H4, H7, HB, HA, H4, H6, H4, HF], [HD, H5, H6, H9, H4, HB, H9, H0], [H2, H4, H7, HC, HC, H6, H7, HA],
              [HD, HA, H0, H4, H5, H2, H7, H5], [HB, H7, HD, H5, HD, H7, HB, H2], [36, 27, 1, 47, 43, 36, 11, 61]);
    NextReached(KEY, PLAIN, 9, [H5, H5, H7, HF, H8, H6, H6], [H3, HC, H7, HA, HA, HB, H3],
                [HD, H5, H6, H9, H4, HB, H9, H0], [H2, H4, H7, HC, HC, H6, H7, HA],
                [H5, H5, HF, HE, H1, H9, H9], [HF, H1, HE, HA, HA, HC, HC],
                [HB, H1, HF, H3, H4, H7, HB, HA, H4, H6, H4, HF], [HB, H7, HD, H5, HD, H7, HB, H2]);
  }

  lemma Keys10()
    ensures KeyWork([H5, H5, H7, HF, H8, H6, H6], [H3, HC, H7, HA, HA, HB, H3], 2,
                    [H5, H5, HF, HE, H1, H9, H9], [HF, H1, HE, HA, HA, HC, HC],
                    [HB, H1, HF, H3, H4, H7, HB, HA, H4, H6, H4, HF])
  {
  }

  lemma Boxes10A()
    ensures Boxes(0, HA, H2, H4, H7, HB, H1, HF, 36, 27, HD, HA)
    ensures Boxes(1, H4, H7, HC, HC, H3, H4, H7, 1, 47, H0, H4)
  {
  }

  lemma Boxes10B()
    ensures Boxes(2, HC, HC, H6, H7, HB, HA, H4, 43, 36, H5, H2)
    ensures Boxes(3, H6, H7, HA, H2, H6, H4, HF, 11, 61, H7, H5)
  {
  }

  lemma Mixes10()
    ensures Mixes([HD, H5, H6, H9, H4, HB, H9, H0], [HD, HA, H0, H4, H5, H2, H7, H5], [HB, H7, HD, H5, HD, H7, HB, H2])
  {
  }

  lemma After11()
    ensures Reached(KEY, PLAIN, 11, [H5, H7, HF, H8, H6, H6, H5], [HC, H7, HA, HA, HB, H3, H3],
                    [HB, H7, HD, H5, HD, H7, HB, H2], [HC, H5, H7, H8, H3, HC, H7, H8])
  {
    hide Reached, KeyWork, Boxes, Mixes, Round, Shifts;
    After10();
    Shifted();
    Keys11();
    Boxes11A();
    Boxes11B();
    Mixes11();
    RoundFrom([H2, H1, H5, HF, HD, H3, HD, HE, HD, H3, H8, H6], [H2, H4, H7, HC, HC, H6, H7, HA], [HB, H7, HD, H5, HD, H7, HB, H2],
              [H7, H3, H0, H5, HD, H1, H0, H1], [HC, H5, H7, H8, H3, HC, H7, H8], [15, 45, 18, 44, 22, 1, 44, 49]);
    NextReached(KEY, PLAIN, 10, [H5, H5, HF, HE, H1, H9, H9], [HF, H1, HE, HA, HA, HC, HC],
                [H2, H4, H7, HC, HC, H6, H7, HA], [HB, H7, HD, H5, HD, H7, HB, H2],
                [H5, H7, HF, H8, H6, H6, H5], [HC, H7, HA, HA, HB, H3, H3],
                [H2, H1, H5, HF, HD, H3, HD, HE, HD, H3, H8, H6], [HC, H5, H7, H8, H3, HC, H7, H8]);
  }

  lemma Keys11()
    ensures KeyWork([H5, H5, HF, HE, H1, H9, H9], [HF, H1, HE, HA, HA, HC, HC], 2,
                    [H5, H7, HF, H8, H6, H6, H5], [HC, H7, HA, HA, HB, H3, H3],
                    [H2, H1, H5, HF, HD, H3, HD, HE, HD, H3, H8, H6])
  {
  }

  lemma Boxes11A()
    ensures Boxes(0, H2, HB, H7, HD, H2, H1, H5, 15, 45, H7, H3)
    ensures Boxes(1, H7, HD, H5, HD, HF, HD, H3, 18, 44, H0, H5)
  {
  }

  lemma Boxes11B()
    ensures Boxes(2, H5, HD, H7, HB, HD, HE, HD, 22, 1, HD, H1)
    ensures Boxes(3, H7, HB, H2, HB, H3, H8, H6, 44, 49, H0, H1)
  {
  }

  lemma Mixes11()
    ensures Mixes([H2, H4, H7, HC, HC, H6, H7, HA], [H7, H3, H0, H5, HD, H1, H0, H1], [HC, H5, H7, H8, H3, HC, H7, H8])
  {
  }

  lemma After12()
    ensures Reached(KEY, PLAIN, 12, [H5, HF, HE, H1, H9, H9, H5], [H1, HE, HA, HA, HC, HC, HF],
                    [HC, H5, H7, H8, H3, HC, H7, H8], [H7, H5, HB, HD, H1, H8, H5, H8])
  {
    hide Reached, KeyWork, Boxes, Mixes, Round, Shifts;
    After11();
    Shifted();
    Keys12();
    Boxes12A();
    Boxes12B();
    Mixes12();
    RoundFrom([H7, H5, H7, H1, HF, H5, H9, H4, H6, H7, HE, H9], [HB, H7, HD, H5, HD, H7, HB, H2], [HC, H5, H7, H8, H3, HC, H7, H8],
              [H7, HB, H8, HB, H2, H6, H3, H5], [H7, H5, HB, HD, H1, H8, H5, H8], [18, 30, 36, 18, 33, 47, 8, 12]);
    NextReached(KEY, PLAIN, 11, [H5, H7, HF, H8, H6, H6, H5], [HC, H7, HA, HA, HB, H3, H3],
                [HB, H7, HD, H5, HD, H7, HB, H2], [HC, H5, H7, H8, H3, HC, H7, H8],
                [H5, HF, HE, H1, H9, H9, H5], [H1, HE, HA, HA, HC, HC, HF],
                [H7, H5, H7, H1, HF, H5, H9, H4, H6, H7, HE, H9], [H7, H5, HB, HD, H1, H8, H5, H8]);
  }

  lemma Keys12()
    ensures KeyWork([H5, H7, HF, H8, H6, H6, H5], [HC, H7, HA, HA, HB, H3, H3], 2,
                    [H5, HF, HE, H1, H9, H9, H5], [H1, HE, HA, HA, HC, HC, HF],
                    [H7, H5, H7, H1, HF, H5, H9, H4, H6, H7, HE, H9])
  {
  }

  lemma Boxes12A()
    ensures Boxes(0, H8, HC, H5, H7, H7, H5, H7, 18, 30, H7, HB)
    ensures Boxes(1, H5, H7, H8, H3, H1, HF, H5, 36, 18, H8, HB)
  {
  }

  lemma Boxes12B()
    ensures Boxes(2, H8, H3, HC, H7, H9, H4, H6, 33, 47, H2, H6)
    ensures Boxes(3, HC, H7, H8, HC, H7, HE, H9, 8, 12, H3, H5)
  {
  }

  lemma Mixes12()
    ensures Mixes([HB, H7, HD, H5, HD, H7, HB, H2], [H7, HB, H8, HB, H2, H6, H3, H5], [H7, H5, HB, HD, H1, H8, H5, H8])
  {
  }

  lemma After13()
    ensures Reached(KEY, PLAIN, 13, [H7, HF, H8, H6, H6, H5, H5], [H7, HA, HA, HB, H3, H3, HC],
                    [H7, H5, HB, HD, H1, H8, H5, H8], [H1, H8, HC, H3, H1, H5, H5, HA])
  {
    hide Reached, KeyWork, Boxes, Mixes, Round, Shifts;
    After12();
    Shifted();
    Keys13();
    Boxes13A();
    Boxes13B();
    Mixes13();
    RoundFrom([H9, H7, HC, H5, HD, H1, HF, HA, HB, HA, H4, H1], [HC, H5, H7, H8, H3, HC, H7, H8], [H7, H5, HB, HD, H1, H8, H5, H8],
              [H9, HA, HD, H1, H8, HB, H4, HF], [H1, H8, HC, H3, H1, H5, H5, HA], [53, 27, 32, 53, 30, 29, 33, 56]);
    NextReached(KEY, PLAIN, 12, [H5, HF, HE, H1, H9, H9, H5], [H1, HE, HA, HA, HC, HC, HF],
                [HC, H5, H7, H8, H3, HC, H7, H8], [H7, H5, HB, HD, H1, H8, H5, H8],
                [H7, HF, H8, H6, H6, H5, H5], [H7, HA, HA, HB, H3, H3, HC],
                [H9, H7, HC, H5, HD, H1, HF, HA, HB, HA, H4, H1], [H1, H8, HC, H3, H1, H5, H5, HA]);
  }

  lemma Keys13()
    ensures KeyWork([H5, HF, HE, H1, H9, H9, H5], [H1, HE, HA, HA, HC, HC, HF], 2,
                    [H7, HF, H8, H6, H6, H5, H5], [H7, HA, HA, HB, H3, H3, HC],
                    [H9, H7, HC, H5, HD, H1, HF, HA, HB, HA, H4, H1])
  {
  }

  lemma Boxes13A()
    ensures Boxes(0, H8, H7, H5, HB, H9, H7, HC, 53, 27, H9, HA)
    ensures Boxes(1, H5, HB, HD, H1, H5, HD, H1, 32, 53, HD, H1)
  {
  }

  lemma Boxes13B()
    ensures Boxes(2, HD, H1, H8, H5, HF, HA, HB, 30, 29, H8, HB)
    ensures Boxes(3, H8, H5, H8, H7, HA, H4, H1, 33, 56, H4, HF)
  {
  }

  lemma Mixes13()
    ensures Mixes([HC, H5, H7, H8, H3, HC, H7, H8], [H9, HA, HD, H1, H8, HB, H4, HF], [H1, H8, HC, H3, H1, H5, H5, HA])
  {
  }

  lemma After14()
    ensures Reached(KEY, PLAIN, 14, [HF, HE, H1, H9, H9, H5, H5], [HE, HA, HA, HC, HC, HF, H1],
                    [H1, H8, HC, H3, H1, H5, H5, HA], [HC, H2, H8, HC, H9, H6, H0, HD])
  {
    hide Reached, KeyWork, Boxes, Mixes, Round, Shifts;
    After13();
    Shifted();
    Keys14();
    Boxes14A();
    Boxes14B();
    Mixes14();
    RoundFrom([H5, HF, H4, H3, HB, H7, HF, H2, HE, H7, H3, HA], [H7, H5, HB, HD, H1, H8, H5, H8], [H1, H8, HC, H3, H1, H5, H5, HA],
              [H6, H4, H7, H9, H9, HA, HF, H1], [HC, H2, H8, HC, H9, H6, H0, HD], [10, 18, 11, 56, 15, 2, 59, 7]);
    NextReached(KEY, PLAIN, 13, [H7, HF, H8, H6, H6, H5, H5], [H7, HA, HA, HB, H3, H3, HC],
                [H7, H5, HB, HD, H1, H8, H5, H8], [H1, H8, HC, H3, H1, H5, H5, HA],
                [HF, HE, H1, H9, H9, H5, H5], [HE, HA, HA, HC, HC, HF, H1],
                [H5, HF, H4, H3, HB, H7, HF, H2, HE, H7, H3, HA], [HC, H2, H8, HC, H9, H6, H0, HD]);
  }

  lemma Keys14()
    ensures KeyWork([H7, HF, H8, H6, H6, H5, H5], [H7, HA, HA, HB, H3, H3, HC], 2,
                    [HF, HE, H1, H9, H9, H5, H5], [HE, HA, HA, HC, HC, HF, H1],
                    [H5, HF, H4, H3, HB, H7, HF, H2, HE, H7, H3, HA])
  {
  }

  lemma Boxes14A()
    ensures Boxes(0, HA, H1, H8, HC, H5, HF, H4, 10, 18, H6, H4)
    ensures Boxes(1, H8, HC, H3, H1, H3, HB, H7, 11, 56, H7, H9)
  {
  }

  lemma Boxes14B()
    ensures Boxes(2, H3, H1, H5, H5, HF, H2, HE, 15, 2, H9, HA)
    ensures Boxes(3, H5, H5, HA, H1, H7, H3, HA, 59, 7, HF, H1)
  {
  }

  lemma Mixes14()
    ensures Mixes([H7, H5, HB, HD, H1, H8, H5, H8], [H6, H4, H7, H9, H9, HA, HF, H1], [HC, H2, H8, HC, H9, H6, H0, HD])
  {
  }

  lemma After15()
    ensures Reached(KEY, PLAIN, 15, [HF, H8, H6, H6, H5, H5, H7], [HA, HA, HB, H3, H3, HC, H7],
                    [HC, H2, H8, HC, H9, H6, H0, HD], [H4, H3, H4, H2, H3, H2, H3, H4])
  {
    hide Reached, KeyWork, Boxes, Mixes, Round, Shifts;
    After14();
    Shifted();
    Keys15();
    Boxes15A();
    Boxes15B();
    Mixes15();
    RoundFrom([HB, HF, H9, H1, H8, HD, H3, HD, H3, HF, H0, HA], [H1, H8, HC, H3, H1, H5, H5, HA], [HC, H2, H8, HC, H9, H6, H0, HD],
              [HB, H2, HE, H8, H8, HD, H3, HC], [H4, H3, H4, H2, H3, H2, H3, H4], [27, 46, 27, 10, 30, 63, 62, 24]);
    NextReached(KEY, PLAIN, 14, [HF, HE, H1, H9, H9, H5, H5], [HE, HA, HA, HC, HC, HF, H1],
                [H1, H8, HC, H3, H1, H5, H5, HA], [HC, H2, H8, HC, H9, H6, H0, HD],
                [HF, H8, H6, H6, H5, H5, H7], [HA, HA, HB, H3, H3, HC, H7],
                [HB, HF, H9, H1, H8, HD, H3, HD, H3, HF, H0, HA], [H4, H3, H4, H2, H3, H2, H3, H4]);
  }

  lemma Keys15()
    ensures KeyWork([HF, HE, H1, H9, H9, H5, H5], [HE, HA, HA, HC, HC, HF, H1], 2,
                    [HF, H8, H6, H6, H5, H5, H7], [HA, HA, HB, H3, H3, HC, H7],
                    [HB, HF, H9, H1, H8, HD, H3, HD, H3, HF, H0, HA])
  {
  }

  lemma Boxes15A()
    ensures Boxes(0, HD, HC, H2, H8, HB, HF, H9, 27, 46, HB, H2)
    ensures Boxes(1, H2, H8, HC, H9, H1, H8, HD, 27, 10, HE, H8)
  {
  }

  lemma Boxes15B()
    ensures Boxes(2, HC, H9, H6, H0, H3, HD, H3, 30, 63, H8, HD)
    ensures Boxes(3, H6, H0, HD, HC, HF, H0, HA, 62, 24, H3, HC)
  {
  }

  lemma Mixes15()
    ensures Mixes([H1, H8, HC, H3, H1, H5, H5, HA], [HB, H2, HE, H8, H8, HD, H3, HC], [H4, H3, H4, H2, H3, H2, H3, H4])
  {
  }

  lemma After16()
    ensures Reached(KEY, PLAIN, 16, [HF, H0, HC, HC, HA, HA, HF], [H5, H5, H6, H6, H7, H8, HF],
                    [H4, H3, H4, H2, H3, H2, H3, H4], [H0, HA, H4, HC, HD, H9, H9, H5])
  {
    hide Reached, KeyWork, Boxes, Mixes, Round, Shifts;
    After15();
    Shifted();
    Keys16();
    Boxes16A();
    Boxes16B();
    Mixes16();
    RoundFrom([HC, HB, H3, HD, H8, HB, H0, HE, H1, H7, HF, H5], [HC, H2, H8, HC, H9, H6, H0, HD], [H4, H3, H4, H2, H3, H2, H3, H4],
              [HA, H7, H8, H3, H2, H4, H2, H9], [H0, HA, H4, HC, HD, H9, H9, H5], [45, 58, 15, 23, 18, 18, 28, 30]);
    NextReached(KEY, PLAIN, 15, [HF, H8, H6, H6, H5, H5, H7], [HA, HA, HB, H3, H3, HC, H7],
                [HC, H2, H8, HC, H9, H6, H0, HD], [H4, H3, H4, H2, H3, H2, H3, H4],
                [HF, H0, HC, HC, HA, HA, HF], [H5, H5, H6, H6, H7, H8, HF],
                [HC, HB, H3, HD, H8, HB, H0, HE, H1, H7, HF, H5], [H0, HA, H4, HC, HD, H9, H9, H5]);
  }

  lemma Keys16()
    ensures KeyWork([HF, H8, H6, H6, H5, H5, H7], [HA, HA, HB, H3, H3, HC, H7], 1,
                    [HF, H0, HC, HC, HA, HA, HF], [H5, H5, H6, H6, H7, H8, HF],
                    [HC, HB, H3, HD, H8, HB, H0, HE, H1, H7, HF, H5])
  {
  }

  lemma Boxes16A()
    ensures Boxes(0, H4, H4, H3, H4, HC, HB, H3, 45, 58, HA, H7)
    ensures Boxes(1, H3, H4, H2, H3, HD, H8, HB, 15, 23, H8, H3)
  {
  }

  lemma Boxes16B()
    ensures Boxes(2, H2, H3, H2, H3, H0, HE, H1, 18, 18, H2, H4)
    ensures Boxes(3, H2, H3, H4, H4, H7, HF, H5, 28, 30, H2, H9)
  {
  }

  lemma Mixes16()
    ensures Mixes([HC, H2, H8, HC, H9, H6, H0, HD], [HA, H7, H8, H3, H2, H4, H2, H9], [H0, HA, H4, HC, HD, H9, H9, H5])
  {
  }

  lemma End()
    ensures LoadsL(CODE, [H0, HA, H4, HC, HD, H9, H9, H5]) && LoadsR(CODE, [H4, H3, H4, H2, H3, H2, H3, H4])
  {
  }

  /** What the cipher makes of this block with this key. */
  lemma KnownAnswer()
    ensures Encrypt(Unsalted(), Schedule(FromHex(KEY)), false, FromHex(PLAIN)) == FromHex(CODE)
  {
    hide Reached, LoadsL, LoadsR, Schedule, FromHex, Des.Encrypt;
    After16();
    End();
    LastReached(KEY, PLAIN, [HF, H0, HC, HC, HA, HA, HF], [H5, H5, H6, H6, H7, H8, HF],
                [H4, H3, H4, H2, H3, H2, H3, H4], [H0, HA, H4, HC, HD, H9, H9, H5], CODE);
  }
}
