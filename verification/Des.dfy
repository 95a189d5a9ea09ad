/** The Data Encryption Standard as a function of bits, and its laws. */
module Des {
  import opened DesTables

  type Bits = seq<bool>

  /** The selection E, possibly salted. */
  predicate IsSelection(e: seq<Half>) { |e| == 48 }

  /** Sixteen keys of 48 bits. */
  predicate IsSchedule(ks: seq<Bits>) {
    |ks| == 16 && forall i :: 0 <= i < 16 ==> |ks[i]| == 48
  }

  function Xor(a: Bits, b: Bits): (r: Bits)
    requires |a| == |b|
    ensures |r| == |a|
  {
    seq(|a|, j requires 0 <= j < |a| => a[j] != b[j])
  }

  function Complement(a: Bits): (r: Bits)
    ensures |r| == |a|
  {
    seq(|a|, j requires 0 <= j < |a| => !a[j])
  }

  function Weight(b: bool, w: nat): nat { if b then w else 0 }

  /** The 48 bits before selection: the right half expanded, against the key. */
  function PreS(e: seq<Half>, k: Bits, r: Bits): (p: Bits)
    requires IsSelection(e) && |k| == 48 && |r| == 32
    ensures |p| == 48
  {
    seq(48, j requires 0 <= j < 48 => r[e[j] - 1] != k[j])
  }

  /** Six bits select one nibble of the g-th box: the outer two choose the row. */
  function Chosen(p: Bits, g: nat): Nibble
    requires |p| == 48 && g < 8
  {
    Box(g, Weight(p[6 * g], 32) + Weight(p[6 * g + 1], 8) + Weight(p[6 * g + 2], 4)
           + Weight(p[6 * g + 3], 2) + Weight(p[6 * g + 4], 1) + Weight(p[6 * g + 5], 16))
  }

  /** Bits of a nibble, the highest first. */
  function NibbleBit(n: Nibble, j: nat): bool
    requires j < 4
  {
    (if j == 0 then n / 8 else if j == 1 then n / 4 % 2 else if j == 2 then n / 2 % 2 else n % 2) == 1
  }

  /** The cipher function, permuted. */
  function F(e: seq<Half>, k: Bits, r: Bits): (f: Bits)
    requires IsSelection(e) && |k| == 48 && |r| == 32
    ensures |f| == 32
  {
    var p := PreS(e, k, r);
    seq(32, j requires 0 <= j < 32 => NibbleBit(Chosen(p, (Mixed(j) - 1) / 4), (Mixed(j) - 1) % 4))
  }

  datatype Halves = Halves(l: Bits, r: Bits)

  predicate IsBlock(h: Halves) { |h.l| == 32 && |h.r| == 32 }

  function Round(e: seq<Half>, k: Bits, h: Halves): (h': Halves)
    requires IsSelection(e) && |k| == 48 && IsBlock(h)
    ensures IsBlock(h')
  {
    Halves(h.r, Xor(h.l, F(e, k, h.r)))
  }

  /** The key of the n-th round, counted from 1; decryption takes them backwards. */
  function KeyOf(ks: seq<Bits>, back: bool, n: nat): (k: Bits)
    requires IsSchedule(ks) && 1 <= n <= 16
    ensures |k| == 48
  {
    ks[if back then 16 - n else n - 1]
  }

  function Rounds(e: seq<Half>, ks: seq<Bits>, back: bool, h: Halves, n: nat): (h': Halves)
    requires IsSelection(e) && IsSchedule(ks) && IsBlock(h) && n <= 16
    ensures IsBlock(h')
  {
    if n == 0 then h else Round(e, KeyOf(ks, back, n), Rounds(e, ks, back, h, n - 1))
  }

  function Swapped(h: Halves): Halves { Halves(h.r, h.l) }

  function Load(b: Bits): (h: Halves)
    requires |b| == 64
    ensures IsBlock(h)
  {
    Halves(seq(32, j requires 0 <= j < 32 => b[Ip(j) - 1]), seq(32, j requires 0 <= j < 32 => b[Ip(j + 32) - 1]))
  }

  function Store(h: Halves): (b: Bits)
    requires IsBlock(h)
    ensures |b| == 64
  {
    seq(64, j requires 0 <= j < 64 => (h.l + h.r)[Fp(j) - 1])
  }

  function Encrypt(e: seq<Half>, ks: seq<Bits>, back: bool, b: Bits): (c: Bits)
    requires IsSelection(e) && IsSchedule(ks) && |b| == 64
    ensures |c| == 64
  {
    Store(Swapped(Rounds(e, ks, back, Load(b), 16)))
  }

  // ----- inversion -----

  lemma StoreLoad(b: Bits)
    requires |b| == 64
    ensures Store(Load(b)) == b
  {
    hide Ip, Fp;
    forall j | 0 <= j < 64 ensures Store(Load(b))[j] == b[j] {
      Inverse(j);
    }
  }

  lemma LoadStore(h: Halves)
    requires IsBlock(h)
    ensures Load(Store(h)) == h
  {
    hide Ip, Fp;
    forall j | 0 <= j < 32 ensures Load(Store(h)).l[j] == h.l[j] && Load(Store(h)).r[j] == h.r[j] {
      Inverse(j);
      Inverse(j + 32);
    }
    assert Load(Store(h)).l == h.l && Load(Store(h)).r == h.r;
  }

  lemma XorTwice(a: Bits, b: Bits)
    requires |a| == |b|
    ensures Xor(Xor(a, b), b) == a
  {
  }

  /** A round undoes itself on exchanged halves. */
  lemma RoundBack(e: seq<Half>, k: Bits, h: Halves)
    requires IsSelection(e) && |k| == 48 && IsBlock(h)
    ensures IsBlock(Swapped(Round(e, k, h))) && Round(e, k, Swapped(Round(e, k, h))) == Swapped(h)
  {
    hide F, Xor;
    XorTwice(h.l, F(e, k, h.r));
  }

  lemma RoundsNone(e: seq<Half>, ks: seq<Bits>, back: bool, h: Halves)
    requires IsSelection(e) && IsSchedule(ks) && IsBlock(h)
    ensures Rounds(e, ks, back, h, 0) == h
  {
  }

  lemma RoundsNext(e: seq<Half>, ks: seq<Bits>, back: bool, h: Halves, n: nat)
    requires IsSelection(e) && IsSchedule(ks) && IsBlock(h) && 1 <= n <= 16
    ensures Rounds(e, ks, back, h, n) == Round(e, KeyOf(ks, back, n), Rounds(e, ks, back, h, n - 1))
  {
  }

  /** The reverse rounds go back over the states of the forward ones, halves exchanged. */
  lemma {:induction false} RoundsBack(e: seq<Half>, ks: seq<Bits>, back: bool, h: Halves, n: nat)
    requires IsSelection(e) && IsSchedule(ks) && IsBlock(h) && n <= 16
    ensures Rounds(e, ks, !back, Swapped(Rounds(e, ks, back, h, 16)), n) == Swapped(Rounds(e, ks, back, h, 16 - n))
  {
    hide Rounds, Round;
    var last := Swapped(Rounds(e, ks, back, h, 16));
    if n == 0 {
      RoundsNone(e, ks, !back, last);
    } else {
      RoundsBack(e, ks, back, h, n - 1);
      RoundsNext(e, ks, !back, last, n);
      RoundsNext(e, ks, back, h, 17 - n);
      RoundBack(e, KeyOf(ks, back, 17 - n), Rounds(e, ks, back, h, 16 - n));
    }
  }

  /** Decryption undoes encryption, and the other way round. */
  lemma Inversion(e: seq<Half>, ks: seq<Bits>, back: bool, b: Bits)
    requires IsSelection(e) && IsSchedule(ks) && |b| == 64
    ensures Encrypt(e, ks, !back, Encrypt(e, ks, back, b)) == b
  {
    hide Rounds, Load, Store;
    var h := Rounds(e, ks, back, Load(b), 16);
    LoadStore(Swapped(h));
    RoundsBack(e, ks, back, Load(b), 16);
    RoundsNone(e, ks, back, Load(b));
    StoreLoad(b);
  }

  // ----- the key schedule -----

  /** Places the halves of the key have been rotated by when the i-th key is picked. */
  function Turned(i: nat): nat
    requires i < 16
  {
    Shifts(i) + if i == 0 then 0 else Turned(i - 1)
  }

  /** In the end the halves have been turned all the way round. */
  lemma FullTurn()
    ensures Turned(15) == 28
  {
    assert Turned(7) == 14;
  }

  /** Where bit j of the i-th key comes from: each is one bit of the key. */
  function Origin(i: nat, j: nat): Place
    requires i < 16 && j < 48
  {
    if j < 24 then Pc1C((Pc2C(j) - 1 + Turned(i)) % 28) else Pc1D((Pc2D(j - 24) - 29 + Turned(i)) % 28)
  }

  function Schedule(key: Bits): (ks: seq<Bits>)
    requires |key| >= 64
    ensures IsSchedule(ks)
  {
    seq(16, i requires 0 <= i < 16 => seq(48, j requires 0 <= j < 48 => key[Origin(i, j) - 1]))
  }

  // ----- complementation -----

  function ComplementKeys(ks: seq<Bits>): (r: seq<Bits>)
    requires IsSchedule(ks)
    ensures IsSchedule(r)
  {
    seq(16, i requires 0 <= i < 16 => Complement(ks[i]))
  }

  lemma ScheduleComplement(key: Bits)
    requires |key| >= 64
    ensures Schedule(Complement(key)) == ComplementKeys(Schedule(key))
  {
    hide Origin;
    var a, b := Schedule(Complement(key)), ComplementKeys(Schedule(key));
    forall i | 0 <= i < 16 ensures a[i] == b[i] {
      forall j | 0 <= j < 48 ensures a[i][j] == b[i][j] {
      }
    }
  }

  function ComplementBoth(h: Halves): Halves { Halves(Complement(h.l), Complement(h.r)) }

  /** Key and half both complemented: what is selected stays the same. */
  lemma FComplement(e: seq<Half>, k: Bits, r: Bits)
    requires IsSelection(e) && |k| == 48 && |r| == 32
    ensures F(e, Complement(k), Complement(r)) == F(e, k, r)
  {
    hide Chosen, NibbleBit, Mixed;
    assert PreS(e, Complement(k), Complement(r)) == PreS(e, k, r);
  }

  lemma XorComplement(a: Bits, b: Bits)
    requires |a| == |b|
    ensures Xor(Complement(a), b) == Complement(Xor(a, b))
  {
  }

  lemma {:induction false} RoundsComplement(e: seq<Half>, ks: seq<Bits>, back: bool, h: Halves, n: nat)
    requires IsSelection(e) && IsSchedule(ks) && IsBlock(h) && n <= 16
    ensures Rounds(e, ComplementKeys(ks), back, ComplementBoth(h), n) == ComplementBoth(Rounds(e, ks, back, h, n))
  {
    if n > 0 {
      hide F, Xor, Complement;
      RoundsComplement(e, ks, back, h, n - 1);
      var before := Rounds(e, ks, back, h, n - 1);
      var k := KeyOf(ks, back, n);
      FComplement(e, k, before.r);
      XorComplement(before.l, F(e, k, before.r));
    }
  }

  lemma LoadComplement(b: Bits)
    requires |b| == 64
    ensures Load(Complement(b)) == ComplementBoth(Load(b))
  {
    hide Ip;
    assert Load(Complement(b)).l == ComplementBoth(Load(b)).l;
    assert Load(Complement(b)).r == ComplementBoth(Load(b)).r;
  }

  lemma StoreComplement(h: Halves)
    requires IsBlock(h)
    ensures Store(ComplementBoth(h)) == Complement(Store(h))
  {
    hide Fp;
  }

  /** Complementing key and block complements the result, whatever the selection. */
  lemma Complementation(e: seq<Half>, key: Bits, back: bool, b: Bits)
    requires IsSelection(e) && |key| >= 64 && |b| == 64
    ensures Encrypt(e, Schedule(Complement(key)), back, Complement(b)) == Complement(Encrypt(e, Schedule(key), back, b))
  {
    hide Schedule, Rounds, Load, Store, Complement, ComplementKeys;
    var ks := Schedule(key);
    ScheduleComplement(key);
    LoadComplement(b);
    RoundsComplement(e, ks, back, Load(b), 16);
    StoreComplement(Swapped(Rounds(e, ks, back, Load(b), 16)));
  }
}
