/** The order of the operands of a chain: harder ones first, marked ones before all. */
module Ordering {
  import opened Sequences
  import opened Canon

  predicate IsVHard(t: Tree) { t.su == VHard }
  predicate IsReg(t: Tree) { t.Leaf? && t.reg }

  function SuOf(t: Tree): nat {
    if t.su == VHard then 0 else t.su.n
  }

  /** Is a to stand before b? */
  predicate Harder(a: Tree, b: Tree) {
    if IsVHard(b) then false
    else if IsVHard(a) then true
    else if IsReg(b) then false
    else if IsReg(a) then true
    else if b.Num? then true
    else if a.Num? then false
    else SuOf(a) > SuOf(b)
  }

  /** Marked operands, registers, other operands, constants. */
  function Rank(t: Tree): nat {
    if t.su.VHard? then 0 else if t.Leaf? && t.reg then 1 else if !t.Num? then 2 else 3
  }

  /** The order operands are to stand in: by rank, and where the numbers count the
      larger number first. */
  predicate MayPrecede(a: Tree, b: Tree) {
    Rank(a) < Rank(b) || (Rank(a) == Rank(b) && (Rank(a) == 2 ==> a.su.n >= b.su.n))
  }

  /** No operand is followed by one that has to stand before it. */
  predicate Ordered(ts: seq<Tree>) {
    forall i, j :: 0 <= i < j < |ts| ==> MayPrecede(ts[i], ts[j])
  }

  lemma HarderTotal(a: Tree, b: Tree, c: Tree)
    ensures MayPrecede(c, b) && MayPrecede(b, a) ==> MayPrecede(c, a)
    ensures Harder(a, b) ==> MayPrecede(a, b)
    ensures !Harder(a, b) ==> MayPrecede(b, a)
  {
  }

  /** Marked operands outrank the others; of those, constants come last. */
  lemma HarderKinds(a: Tree, b: Tree)
    ensures Harder(a, b) ==> !IsVHard(b)
    ensures IsVHard(a) && !IsVHard(b) ==> Harder(a, b) && !MayPrecede(b, a)
    ensures !IsVHard(a) && !a.Num? && !IsVHard(b) && b.Num? ==> !MayPrecede(b, a)
  {
  }

  /** The first p operands are in place. */
  ghost predicate Settled(ts: seq<Tree>, p: nat) {
    forall i, j :: 0 <= i < j < |ts| && i < p ==> MayPrecede(ts[i], ts[j])
  }

  /** None of the operands from p to q is strictly harder than the one at p. */
  ghost predicate Tops(ts: seq<Tree>, p: nat, q: nat) {
    p < |ts| && q <= |ts| && forall j :: p <= j < q ==> MayPrecede(ts[p], ts[j])
  }

  lemma SwapStep(ts: seq<Tree>, p: nat, q: nat)
    requires Settled(ts, p) && Tops(ts, p, q) && p <= q < |ts|
    ensures var after := if Harder(ts[q], ts[p]) then Swap(ts, p, q) else ts;
            Settled(after, p) && Tops(after, p, q + 1) && multiset(after) == multiset(ts)
  {
    hide Harder;
    SwapMultiset(ts, p, q);
    HarderTotal(ts[q], ts[p], ts[q]);
    if Harder(ts[q], ts[p]) {
      var after := Swap(ts, p, q);
      forall j | p <= j < q + 1 ensures MayPrecede(after[p], after[j]) {
        HarderTotal(after[j], ts[p], ts[q]);
      }
    }
  }

  /** The inner loop of the exchange sort, from q on. */
  function Pass(ts: seq<Tree>, p: nat, q: nat): (r: seq<Tree>)
    requires p < |ts| && q <= |ts|
    ensures |r| == |ts|
    decreases |ts| - q
  {
    if q == |ts| then ts
    else Pass(if Harder(ts[q], ts[p]) then Swap(ts, p, q) else ts, p, q + 1)
  }

  /** The outer loop, from p on. */
  function SortedFrom(ts: seq<Tree>, p: nat): (r: seq<Tree>)
    requires p <= |ts|
    ensures |r| == |ts|
    decreases |ts| - p
  {
    if p == |ts| then ts else SortedFrom(Pass(ts, p, p), p + 1)
  }

  function Sorted(ts: seq<Tree>): seq<Tree> { SortedFrom(ts, 0) }

  lemma {:induction false} PassSettles(ts: seq<Tree>, p: nat, q: nat)
    requires Settled(ts, p) && Tops(ts, p, q) && p <= q <= |ts|
    ensures var r := Pass(ts, p, q);
            Settled(r, p + 1) && multiset(r) == multiset(ts)
    decreases |ts| - q
  {
    hide Harder, MayPrecede, Settled, Tops;
    if q == |ts| {
      SettledMore(ts, p);
    } else {
      SwapStep(ts, p, q);
      PassSettles(if Harder(ts[q], ts[p]) then Swap(ts, p, q) else ts, p, q + 1);
    }
  }

  lemma {:induction false} SortedSettles(ts: seq<Tree>, p: nat)
    requires Settled(ts, p) && p <= |ts|
    ensures var r := SortedFrom(ts, p);
            Ordered(r) && multiset(r) == multiset(ts)
    decreases |ts| - p
  {
    hide Harder, MayPrecede, Settled, Tops, Ordered, Pass;
    if p == |ts| {
      SettledAll(ts);
    } else {
      TopsStart(ts, p);
      PassSettles(ts, p, p);
      SortedSettles(Pass(ts, p, p), p + 1);
    }
  }

  /** The exchange sort gives a permutation in order. */
  lemma SortedCorrect(ts: seq<Tree>)
    ensures multiset(Sorted(ts)) == multiset(ts) && |Sorted(ts)| == |ts| && Ordered(Sorted(ts))
  {
    hide Ordered;
    SettledStart(ts);
    SortedSettles(ts, 0);
  }

  lemma SettledStart(ts: seq<Tree>)
    ensures Settled(ts, 0)
  {
  }

  lemma TopsStart(ts: seq<Tree>, p: nat)
    requires p < |ts|
    ensures Tops(ts, p, p)
  {
  }

  lemma SettledMore(ts: seq<Tree>, p: nat)
    requires Settled(ts, p) && Tops(ts, p, |ts|)
    ensures Settled(ts, p + 1)
  {
  }

  lemma SettledAll(ts: seq<Tree>)
    requires Settled(ts, |ts|)
    ensures Ordered(ts)
  {
  }

  method Exchange(clist: array<Tree>, n: nat, p: nat, q: nat)
    requires p < n <= clist.Length && q < n
    modifies clist
    ensures clist[..n] == Swap(old(clist[..n]), p, q)
  {
    clist[q], clist[p] := clist[p], clist[q];
  }

  /** Exchange sort, harder operands first. */
  method SortOperands(clist: array<Tree>, n: nat)
    requires n <= clist.Length
    modifies clist
    ensures clist[..n] == Sorted(old(clist[..n]))
  {
    hide Harder;
    var p := 0;
    while p < n
      invariant p <= n && SortedFrom(clist[..n], p) == Sorted(old(clist[..n]))
    {
      var q := p;
      while q < n
        invariant p <= q <= n && SortedFrom(Pass(clist[..n], p, q), p + 1) == Sorted(old(clist[..n]))
      {
        if Harder(clist[q], clist[p]) {
          Exchange(clist, n, p, q);
        }
        q := q + 1;
      }
      p := p + 1;
    }
  }

  // ----- marked operands -----

  /** The operands marked SU_VHARD, in the order they stand. */
  function Hards(ts: seq<Tree>): (hs: seq<Tree>)
    ensures |hs| <= |ts|
  {
    if ts == [] then []
    else Hards(ts[..|ts| - 1]) + if IsVHard(ts[|ts| - 1]) then [ts[|ts| - 1]] else []
  }

  lemma {:induction false} HardsConcat(a: seq<Tree>, b: seq<Tree>)
    ensures Hards(a + b) == Hards(a) + Hards(b)
  {
    if b == [] {
      assert a + b == a;
    } else {
      HardsConcat(a, b[..|b| - 1]);
      assert (a + b)[..|a + b| - 1] == a + b[..|b| - 1];
    }
  }

  lemma {:induction false} HardsNone(ts: seq<Tree>)
    requires forall i :: 0 <= i < |ts| ==> !IsVHard(ts[i])
    ensures Hards(ts) == []
  {
    if ts != [] {
      HardsNone(ts[..|ts| - 1]);
    }
  }

  lemma HardsParts(a: seq<Tree>, x: Tree, b: seq<Tree>, y: Tree, c: seq<Tree>)
    ensures Hards(a + [x] + b + [y] + c) == Hards(a) + Hards([x]) + Hards(b) + Hards([y]) + Hards(c)
  {
    HardsConcat(a + [x] + b + [y], c);
    HardsConcat(a + [x] + b, [y]);
    HardsConcat(a + [x], b);
    HardsConcat(a, [x]);
  }

  lemma HardsOne(x: Tree)
    ensures Hards([x]) == if IsVHard(x) then [x] else []
  {
    assert [x][..0] == [];
  }

  /** Once the operand at p is marked it stays; before that, none up to q is. */
  ghost predicate Fronted(ts: seq<Tree>, p: nat, q: nat)
    requires p < |ts| && q <= |ts|
  {
    IsVHard(ts[p]) || forall i :: p <= i < q ==> !IsVHard(ts[i])
  }

  lemma HardsSwap(ts: seq<Tree>, p: nat, q: nat)
    requires p < q < |ts| && Fronted(ts, p, q) && Harder(ts[q], ts[p])
    ensures Hards(Swap(ts, p, q)) == Hards(ts)
  {
    hide Hards, Harder;
    var x, y := ts[p], ts[q];
    var a, b, c := ts[..p], ts[p + 1..q], ts[q + 1..];
    SwapParts(ts, p, q);
    HardsParts(a, x, b, y, c);
    HardsParts(a, y, b, x, c);
    HarderKinds(y, x);
    HardsNone(b);
    HardsOne(x);
    HardsOne(y);
  }

  lemma {:induction false} PassHards(ts: seq<Tree>, p: nat, q: nat)
    requires p < |ts| && p <= q <= |ts| && Fronted(ts, p, q)
    ensures Hards(Pass(ts, p, q)) == Hards(ts)
    decreases |ts| - q
  {
    hide Hards, Harder;
    if q < |ts| {
      HarderKinds(ts[q], ts[p]);
      if Harder(ts[q], ts[p]) {
        if p < q {
          HardsSwap(ts, p, q);
        } else {
          assert Swap(ts, p, q) == ts;
        }
        PassHards(Swap(ts, p, q), p, q + 1);
      } else {
        PassHards(ts, p, q + 1);
      }
    }
  }

  lemma {:induction false} SortedHards(ts: seq<Tree>, p: nat)
    requires p <= |ts|
    ensures Hards(SortedFrom(ts, p)) == Hards(ts)
    decreases |ts| - p
  {
    hide Hards, Pass;
    if p < |ts| {
      PassHards(ts, p, p);
      SortedHards(Pass(ts, p, p), p + 1);
    }
  }

  lemma {:induction false} OrderedFront(ts: seq<Tree>)
    requires Ordered(ts)
    ensures ts[..|Hards(ts)|] == Hards(ts)
    ensures forall i :: |Hards(ts)| <= i < |ts| ==> !IsVHard(ts[i])
  {
    hide MayPrecede;
    if ts != [] {
      var n := |ts| - 1;
      OrderedFront(ts[..n]);
      var k := |Hards(ts[..n])|;
      assert ts[..n][..k] == ts[..k];
      if IsVHard(ts[n]) && k < n {
        HarderKinds(ts[n], ts[k]);
        assert false;
      }
    }
  }

  /** Sorting brings the marked operands to the front, and does not reorder them. */
  lemma SortedFront(ts: seq<Tree>)
    ensures Sorted(ts)[..|Hards(ts)|] == Hards(ts)
    ensures forall i :: |Hards(ts)| <= i < |ts| ==> !IsVHard(Sorted(ts)[i])
  {
    hide Ordered, Hards;
    SortedCorrect(ts);
    SortedHards(ts, 0);
    OrderedFront(Sorted(ts));
  }
}
