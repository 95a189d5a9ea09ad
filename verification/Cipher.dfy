/** The cipher as it runs, one bit to an array element. */
module Cipher {
  import opened DesTables
  import opened Des

  class Cipher {
    const c: array<bool>             // key registers
    const d: array<bool>
    const keys: array2<bool>         // the key schedule
    const select: array<Half>        // the selection E
    const block: array<bool>         // L and R, next to each other
    const saved: array<bool>
    const preS: array<bool>
    const f: array<bool>

    ghost predicate Valid()
      reads this
    {
      && c.Length == 28 && d.Length == 28 && keys.Length0 == 16 && keys.Length1 == 48 && select.Length == 48
      && block.Length == 64 && saved.Length == 32 && preS.Length == 48 && f.Length == 32
      && c != d && saved != preS && saved != f && preS != f && block !in {saved, preS, f}
    }

    ghost function Keys(): (ks: seq<Bits>)
      requires Valid()
      reads this, keys
      ensures IsSchedule(ks)
    {
      seq(16, i requires 0 <= i < 16 && Valid() reads this, keys =>
        seq(48, j requires 0 <= j < 48 && Valid() reads this, keys => keys[i, j]))
    }

    ghost function State(): (h: Halves)
      requires Valid()
      reads this, block
      ensures IsBlock(h)
    {
      Halves(block[..32], block[32..])
    }

    constructor ()
      ensures Valid() && fresh(c) && fresh(d) && fresh(keys) && fresh(select)
      ensures fresh(block) && fresh(saved) && fresh(preS) && fresh(f)
    {
      c, d := new bool[28], new bool[28];
      keys := new bool[16, 48];
      select := new Half[48];
      block := new bool[64];
      saved := new bool[32];
      preS := new bool[48];
      f := new bool[32];
    }

    /** setkey: permuted choice 1, then sixteen times: rotate, and permuted choice 2. */
    method SetKey(key: array<bool>)
      requires Valid() && key.Length >= 64 && key != c && key != d
      modifies c, d, keys
      ensures Keys() == Schedule(key[..])
    {
      hide Turned, Origin, Around;
      PermutedChoice1(key);
      ghost var c0, d0 := c[..], d[..];
      AroundNone(c0);
      AroundNone(d0);
      for i := 0 to 16
        invariant Around(c[..], c0, TurnedBefore(i)) && Around(d[..], d0, TurnedBefore(i))
        invariant forall p, j :: 0 <= p < i && 0 <= j < 48 ==> keys[p, j] == key[Origin(p, j) - 1]
      {
        PickKey(i, key[..], c0, d0);
      }
      ghost var ks, sc := Keys(), Schedule(key[..]);
      forall i | 0 <= i < 16 ensures ks[i] == sc[i] {
      }
    }

    /** Rotates both registers and picks the i-th key from them. */
    method PickKey(i: nat, ghost key: Bits, ghost c0: Bits, ghost d0: Bits)
      requires Valid() && i < 16 && Registers(key, c0, d0)
      requires Around(c[..], c0, TurnedBefore(i)) && Around(d[..], d0, TurnedBefore(i))
      modifies c, d, keys
      ensures Around(c[..], c0, TurnedBefore(i + 1)) && Around(d[..], d0, TurnedBefore(i + 1))
      ensures forall j :: 0 <= j < 48 ==> keys[i, j] == key[Origin(i, j) - 1]
      ensures forall p, j :: 0 <= p < 16 && p != i && 0 <= j < 48 ==> keys[p, j] == old(keys[p, j])
    {
      hide Shifts, Origin, Around, Pc2C, Pc2D;
      RotateBoth(Shifts(i), c0, d0, TurnedBefore(i));
      PermutedChoice2(i);
      forall j | 0 <= j < 48 ensures keys[i, j] == key[Origin(i, j) - 1] {
        Originates(key, c[..], d[..], c0, d0, i, j);
        if j >= 24 {
          assert keys[i, (j - 24) + 24] == d[Pc2D(j - 24) - 29];
        }
      }
    }

    method PermutedChoice1(key: array<bool>)
      requires Valid() && key.Length >= 64 && key != c && key != d
      modifies c, d
      ensures Registers(key[..], c[..], d[..])
    {
      hide Pc1C, Pc1D;
      for i := 0 to 28
        invariant forall j :: 0 <= j < i ==> c[j] == key[Pc1C(j) - 1] && d[j] == key[Pc1D(j) - 1]
      {
        c[i] := key[Pc1C(i) - 1];
        d[i] := key[Pc1D(i) - 1];
      }
    }

    method RotateBoth(n: nat, ghost c0: Bits, ghost d0: Bits, ghost turned: nat)
      requires Valid() && Around(c[..], c0, turned) && Around(d[..], d0, turned)
      modifies c, d
      ensures Around(c[..], c0, turned + n) && Around(d[..], d0, turned + n)
    {
      for k := 0 to n
        invariant Around(c[..], c0, turned + k) && Around(d[..], d0, turned + k)
      {
        ghost var c1, d1 := c[..], d[..];
        Rotate(c);
        Rotate(d);
        AroundMore(c1, c0, turned + k);
        AroundMore(d1, d0, turned + k);
      }
    }

    method PermutedChoice2(i: nat)
      requires Valid() && i < 16
      modifies keys
      ensures forall j :: 0 <= j < 24 ==> keys[i, j] == c[Pc2C(j) - 1] && keys[i, j + 24] == d[Pc2D(j) - 29]
      ensures forall p, j :: 0 <= p < 16 && p != i && 0 <= j < 48 ==> keys[p, j] == old(keys[p, j])
    {
      hide Pc2C, Pc2D;
      for j := 0 to 24
        invariant forall q :: 0 <= q < j ==> keys[i, q] == c[Pc2C(q) - 1] && keys[i, q + 24] == d[Pc2D(q) - 29]
        invariant forall p, q :: 0 <= p < 16 && p != i && 0 <= q < 48 ==> keys[p, q] == old(keys[p, q])
      {
        keys[i, j] := c[Pc2C(j) - 1];
        keys[i, j + 24] := d[Pc2D(j) - 28 - 1];
      }
    }

    /** The part of crypt that salts E: a bit of salt exchanges two entries 24 apart. */
    method Salt(salt: string)
      requires Valid() && |salt| >= 2
      modifies select
      ensures forall k :: 0 <= k < 48 ==> select[k] == Salted(salt, k)
    {
      hide Standard, SaltBit, Salting;
      for k := 0 to 48
        invariant forall q :: 0 <= q < k ==> select[q] == Standard(q)
      {
        select[k] := Standard(k);
      }
      Unsalted(salt, select[..]);
      for i := 0 to 2
        invariant Salting(salt, select[..], 6 * i)
      {
        for j := 0 to 6
          invariant Salting(salt, select[..], 6 * i + j)
        {
          SaltStep(salt, select[..], i, j);
          if SaltBit(salt[i], j) {
            var temp := select[6 * i + j];
            select[6 * i + j] := select[6 * i + j + 24];
            select[6 * i + j + 24] := temp;
          }
        }
      }
      AllSalted(salt, select[..]);
    }

    // ----- encrypt -----

    method InitialPermutation(data: array<bool>)
      requires Valid() && data.Length >= 64 && data != block
      modifies block
      ensures State() == Load(data[..64])
    {
      hide Ip;
      for j := 0 to 64
        invariant forall k :: 0 <= k < j ==> block[k] == data[Ip(k) - 1]
      {
        block[j] := data[Ip(j) - 1];
      }
      assert State().l == Load(data[..64]).l && State().r == Load(data[..64]).r;
    }

    method FinalPermutation(data: array<bool>)
      requires Valid() && data.Length >= 64 && data != block
      modifies data
      ensures data[..64] == Store(State()) && data[64..] == old(data[64..])
    {
      hide Fp;
      for j := 0 to 64
        invariant forall k :: 0 <= k < j ==> data[k] == block[Fp(k) - 1]
        invariant forall k :: 64 <= k < data.Length ==> data[k] == old(data[k])
      {
        data[j] := block[Fp(j) - 1];
      }
      assert State().l + State().r == block[..];
    }

    /** Exchanges the halves. */
    method Exchange()
      requires Valid()
      modifies block
      ensures State() == Swapped(old(State()))
    {
      for j := 0 to 32
        invariant forall k :: 0 <= k < j ==> block[k] == old(block[k + 32]) && block[k + 32] == old(block[k])
        invariant forall k :: j <= k < 32 ==> block[k] == old(block[k])
        invariant forall k :: 32 + j <= k < 64 ==> block[k] == old(block[k])
      {
        var t := block[j];
        block[j] := block[32 + j];
        block[32 + j] := t;
      }
      assert State().l == old(State()).r && State().r == old(State()).l;
    }

    /** The right half, expanded and joined with the i-th key. */
    method Expand(i: nat)
      requires Valid() && i < 16
      modifies preS
      ensures preS[..] == PreS(select[..], Keys()[i], State().r)
    {
      for j := 0 to 48
        invariant forall k :: 0 <= k < j ==> preS[k] == (block[31 + select[k]] != keys[i, k])
      {
        preS[j] := block[31 + select[j]] != keys[i, j];
      }
    }

    /** The selection functions, before permutation. */
    method Select()
      requires Valid()
      modifies f
      ensures Nibbles(f[..], preS[..])
    {
      hide NibbleBit, Chosen;
      for j := 0 to 8
        invariant forall g, q :: 0 <= g < j && 0 <= q < 4 ==> f[4 * g + q] == NibbleBit(Chosen(preS[..], g), q)
      {
        var k := Chosen(preS[..], j);
        var t := 4 * j;
        f[t] := NibbleBit(k, 0);
        f[t + 1] := NibbleBit(k, 1);
        f[t + 2] := NibbleBit(k, 2);
        f[t + 3] := NibbleBit(k, 3);
      }
    }

    method SaveRight()
      requires Valid()
      modifies saved
      ensures saved[..] == State().r
    {
      for j := 0 to 32
        invariant forall k :: 0 <= k < j ==> saved[k] == block[k + 32]
      {
        saved[j] := block[32 + j];
      }
    }

    /** The new right half, from the old left one. */
    method Mix(ghost cipher: Bits)
      requires Valid() && |cipher| == 32 && forall j :: 0 <= j < 32 ==> f[Mixed(j) - 1] == cipher[j]
      modifies block
      ensures State() == Halves(old(State()).l, Xor(old(State()).l, cipher))
    {
      hide Mixed;
      ghost var l := State().l;
      for j := 0 to 32
        invariant State().l == l && forall k :: 0 <= k < j ==> block[32 + k] == (l[k] != cipher[k])
      {
        block[32 + j] := block[j] != f[Mixed(j) - 1];
      }
      assert State().r == Xor(l, cipher);
    }

    method RestoreLeft()
      requires Valid()
      modifies block
      ensures State() == Halves(saved[..], old(State()).r)
    {
      ghost var r := State().r;
      for j := 0 to 32
        invariant State().r == r && forall k :: 0 <= k < j ==> block[k] == saved[k]
      {
        block[j] := saved[j];
      }
    }

    /** One round with the i-th key. */
    method OneRound(i: nat)
      requires Valid() && i < 16
      modifies block, saved, preS, f
      ensures State() == Round(select[..], Keys()[i], old(State()))
    {
      hide PreS, F, Xor, Nibbles;
      SaveRight();
      Expand(i);
      Select();
      ghost var cipher := F(select[..], Keys()[i], State().r);
      SelectedAll(select[..], Keys()[i], State().r, f[..]);
      assert forall j :: 0 <= j < 32 ==> f[..][Mixed(j) - 1] == f[Mixed(j) - 1];
      Mix(cipher);
      RestoreLeft();
    }

    /** encrypt: back runs the keys in reverse. */
    method Encrypt(data: array<bool>, back: bool)
      requires Valid() && data.Length >= 64 && data !in {block, saved, preS, f}
      modifies block, saved, preS, f, data
      ensures data[..64] == Des.Encrypt(select[..], Keys(), back, old(data[..64])) && data[64..] == old(data[64..])
    {
      hide Rounds, Load, Store, Des.Encrypt, Round;
      ghost var e, ks, b := select[..], Keys(), data[..64];
      InitialPermutation(data);
      RoundsNone(e, ks, back, Load(b));
      for ii := 0 to 16
        invariant State() == Rounds(e, ks, back, Load(b), ii) && data[..] == old(data[..])
      {
        var i := if back then 15 - ii else ii;
        OneRound(i);
        RoundsNext(e, ks, back, Load(b), ii + 1);
      }
      Exchange();
      FinalPermutation(data);
      EncryptIs(e, ks, back, b);
    }
  }

  /** The nibbles the boxes give, one after the other. */
  predicate Nibbles(f: Bits, p: Bits) {
    |f| == 32 && |p| == 48
    && forall g, q :: 0 <= g < 8 && 0 <= q < 4 ==> f[4 * g + q] == NibbleBit(Chosen(p, g), q)
  }

  lemma SelectedAll(e: seq<Half>, k: Bits, r: Bits, f: Bits)
    requires IsSelection(e) && |k| == 48 && |r| == 32 && |f| == 32
    requires Nibbles(f, PreS(e, k, r))
    ensures forall j :: 0 <= j < 32 ==> f[Mixed(j) - 1] == F(e, k, r)[j]
  {
    hide NibbleBit, Chosen, Mixed, PreS;
    forall j | 0 <= j < 32 ensures f[Mixed(j) - 1] == F(e, k, r)[j] {
      var m := Mixed(j) - 1;
      assert m == 4 * (m / 4) + m % 4;
    }
  }

  /** Six bits of salt to a character. */
  function SaltCode(ch: char): int {
    var c := ch as int;
    var c := if c > 'Z' as int then c - 6 else c;
    var c := if c > '9' as int then c - 7 else c;
    c - '.' as int
  }

  /** The characters in order, from the full stop on: 0 to 63, six bits. */
  lemma SaltCodes(ch: char)
    ensures '.' <= ch <= '9' ==> SaltCode(ch) == ch as int - '.' as int && 0 <= SaltCode(ch) <= 11
    ensures 'A' <= ch <= 'Z' ==> SaltCode(ch) == ch as int - 'A' as int + 12 && 12 <= SaltCode(ch) <= 37
    ensures 'a' <= ch <= 'z' ==> SaltCode(ch) == ch as int - 'a' as int + 38 && 38 <= SaltCode(ch) <= 63
  {
  }

  lemma SaltBits(ch: char)
    requires 0 <= SaltCode(ch) <= 63
    ensures SaltCode(ch) == Weight(SaltBit(ch, 0), 1) + Weight(SaltBit(ch, 1), 2) + Weight(SaltBit(ch, 2), 4)
                          + Weight(SaltBit(ch, 3), 8) + Weight(SaltBit(ch, 4), 16) + Weight(SaltBit(ch, 5), 32)
  {
    hide SaltCode;
    var c := SaltCode(ch);
    assert Weight(SaltBit(ch, 0), 1) == c % 2 && Weight(SaltBit(ch, 1), 2) == 2 * (c / 2 % 2);
    assert Weight(SaltBit(ch, 2), 4) == 4 * (c / 4 % 2) && Weight(SaltBit(ch, 3), 8) == 8 * (c / 8 % 2);
    assert Weight(SaltBit(ch, 4), 16) == 16 * (c / 16 % 2) && Weight(SaltBit(ch, 5), 32) == 32 * (c / 32 % 2);
    hide SaltBit, Weight;
    SixBits(c);
  }

  lemma SixBits(c: nat)
    requires c < 64
    ensures c == c % 2 + 2 * (c / 2 % 2) + 4 * (c / 4 % 2) + 8 * (c / 8 % 2) + 16 * (c / 16 % 2) + 32 * (c / 32 % 2)
  {
    var b, d, e, f, g := c / 2, c / 4, c / 8, c / 16, c / 32;
    assert d == b / 2 && e == d / 2 && f == e / 2 && g == f / 2 && g / 2 == 0;
  }

  /** The salt of two full stops leaves the selection as it is. */
  lemma NoSalt(k: nat)
    requires k < 48
    ensures Salted("..", k) == Standard(k)
  {
    hide Standard;
    SaltCodes('.');
  }

  predicate SaltBit(ch: char, j: nat)
    requires j < 6
  {
    var c := SaltCode(ch);
    (if j == 0 then c else if j == 1 then c / 2 else if j == 2 then c / 4 else if j == 3 then c / 8
     else if j == 4 then c / 16 else c / 32) % 2 == 1
  }

  function Salted(salt: string, k: nat): Half
    requires |salt| >= 2 && k < 48
  {
    var other := if k < 24 then k + 24 else k - 24;
    var g := if k < 24 then k else other;
    if g < 12 && SaltBit(salt[g / 6], g % 6) then Standard(other) else Standard(k)
  }

  predicate Pair(salt: string, e: seq<Half>, n: nat, g: nat)
    requires |salt| >= 2 && |e| == 48 && g < 24
  {
    && e[g] == (if g < n then Salted(salt, g) else Standard(g))
    && e[24 + g] == (if g < n then Salted(salt, 24 + g) else Standard(24 + g))
  }

  /** The first n pairs have been dealt with. */
  ghost predicate Salting(salt: string, e: seq<Half>, n: nat) {
    |salt| >= 2 && |e| == 48 && forall g :: 0 <= g < 24 ==> Pair(salt, e, n, g)
  }

  lemma Unsalted(salt: string, e: seq<Half>)
    requires |salt| >= 2 && |e| == 48 && forall k :: 0 <= k < 48 ==> e[k] == Standard(k)
    ensures Salting(salt, e, 0)
  {
    hide Standard, Salted;
  }

  lemma SaltStep(salt: string, e: seq<Half>, i: nat, j: nat)
    requires i < 2 && j < 6 && Salting(salt, e, 6 * i + j)
    ensures Salting(salt, if SaltBit(salt[i], j) then e[6 * i + j := e[6 * i + j + 24]][6 * i + j + 24 := e[6 * i + j]] else e,
                    6 * i + j + 1)
  {
    hide Standard, SaltBit, Salted;
    SaltedAt(salt, i, j);
    var n := 6 * i + j;
    var e' := if SaltBit(salt[i], j) then e[n := e[n + 24]][n + 24 := e[n]] else e;
    var m := n + 1;
    forall g | 0 <= g < 24 ensures Pair(salt, e', m, g) {
      assert Pair(salt, e, n, g);
    }
  }

  lemma SaltedAt(salt: string, i: nat, j: nat)
    requires |salt| >= 2 && i < 2 && j < 6
    ensures var n, bit := 6 * i + j, SaltBit(salt[i], j);
            && Salted(salt, n) == Standard(if bit then n + 24 else n)
            && Salted(salt, 24 + n) == Standard(if bit then n else n + 24)
  {
    hide Standard, SaltBit;
    assert (6 * i + j) / 6 == i && (6 * i + j) % 6 == j;
  }

  lemma AllSalted(salt: string, e: seq<Half>)
    requires Salting(salt, e, 12)
    ensures forall k :: 0 <= k < 48 ==> e[k] == Salted(salt, k)
  {
    hide Standard;
    forall k | 0 <= k < 48 ensures e[k] == Salted(salt, k) {
      var g := if k < 24 then k else k - 24;
      assert Pair(salt, e, 12, g);
    }
  }

  lemma EncryptIs(e: seq<Half>, ks: seq<Bits>, back: bool, b: Bits)
    requires IsSelection(e) && IsSchedule(ks) && |b| == 64
    ensures Des.Encrypt(e, ks, back, b) == Store(Swapped(Rounds(e, ks, back, Load(b), 16)))
  {
  }

  /** a is a0, turned to the left. */
  predicate Around(a: Bits, a0: Bits, turned: nat) {
    |a| == |a0| == 28 && forall j :: 0 <= j < 28 ==> a[j] == a0[(j + turned) % 28]
  }

  lemma AroundNone(a: Bits)
    requires |a| == 28
    ensures Around(a, a, 0)
  {
  }

  /** What the i-th pick takes for bit j. */
  lemma Originates(key: Bits, c: Bits, d: Bits, c0: Bits, d0: Bits, i: nat, j: nat)
    requires Registers(key, c0, d0) && i < 16 && j < 48 && Around(c, c0, Turned(i)) && Around(d, d0, Turned(i))
    ensures (if j < 24 then c[Pc2C(j) - 1] else d[Pc2D(j - 24) - 29]) == key[Origin(i, j) - 1]
  {
    hide Pc1C, Pc1D, Pc2C, Pc2D, Turned;
  }

  lemma AroundMore(a: Bits, a0: Bits, turned: nat)
    requires Around(a, a0, turned)
    ensures Around(a[1..] + [a[0]], a0, turned + 1)
  {
  }

  function TurnedBefore(i: nat): nat
    requires i <= 16
  {
    if i == 0 then 0 else Turned(i - 1)
  }

  /** The registers after permuted choice 1. */
  predicate Registers(key: Bits, c0: Bits, d0: Bits) {
    |key| >= 64 && |c0| == |d0| == 28
    && forall j :: 0 <= j < 28 ==> c0[j] == key[Pc1C(j) - 1] && d0[j] == key[Pc1D(j) - 1]
  }

  /** One place to the left, the first element to the end. */
  method Rotate(a: array<bool>)
    requires a.Length == 28
    modifies a
    ensures a[..] == old(a[1..]) + [old(a[0])]
  {
    var t := a[0];
    for j := 0 to 27
      invariant forall k :: 0 <= k < j ==> a[k] == old(a[k + 1])
      invariant forall k :: j <= k < 28 ==> a[k] == old(a[k])
    {
      a[j] := a[j + 1];
    }
    a[27] := t;
  }
}
