/** Folding the constants of a sorted chain, and hanging its operands under nodes again. */
module Folding {
  import opened Options
  import opened Canon
  import opened Ordering

  predicate AllConstant(ts: seq<Tree>) {
    forall i :: 0 <= i < |ts| ==> ts[i].Num?
  }

  /** At most one constant, at the end, unless there is nothing but two constants. */
  predicate FewConstants(ts: seq<Tree>) {
    (forall i :: 0 <= i < |ts| - 1 ==> !ts[i].Num?) || (|ts| == 2 && AllConstant(ts))
  }

  /** Constants have nothing else behind them. */
  predicate ConstantsLast(ts: seq<Tree>) {
    forall i, j :: 0 <= i < j < |ts| && ts[i].Num? ==> ts[j].Num?
  }

  /** Two constants folded into one with the first one's mark. */
  function Joined(ts: seq<Tree>, n: nat, c: Tree): seq<Tree>
    requires n + 1 < |ts|
  {
    ts[n := c][..|ts| - 1]
  }

  lemma FoldedStep(op: CommOp, ts: seq<Tree>)
    requires |ts| > 2
    ensures var n := |ts| - 2;
            var c := Ccexpr(op, ts[n], ts[n + 1]);
            Folded(op, ts) == if c.None? then ts else Folded(op, Joined(ts, n, c.value))
  {
    var n := |ts| - 2;
    var c := Ccexpr(op, ts[n], ts[n + 1]);
    if c.Some? {
      assert Joined(ts, n, c.value) == ts[..n] + [c.value];
    }
  }

  /** What folding keeps: order, which lists are all constants, and whatever
      holds of every operand and of constants anyway. */
  lemma {:induction false} FoldedShape(op: CommOp, ts: seq<Tree>, p: Tree -> bool)
    requires |ts| >= 2 && Ordered(ts) && (forall i :: 0 <= i < |ts| ==> p(ts[i])) && forall c: Tree :: c.Num? ==> p(c)
    ensures var fs := Folded(op, ts);
            Ordered(fs) && (forall i :: 0 <= i < |fs| ==> p(fs[i])) && (AllConstant(fs) <==> AllConstant(ts))
    decreases |ts|
  {
    hide Harder, Folded, LongApply;
    if |ts| > 2 {
      var n := |ts| - 2;
      FoldedStep(op, ts);
      var c := Ccexpr(op, ts[n], ts[n + 1]);
      if c.Some? {
        var us := Joined(ts, n, c.value);
        forall i, j | 0 <= i < j < |us| ensures MayPrecede(us[i], us[j]) {
          assert MayPrecede(ts[i], ts[j]);
        }
        FoldedShape(op, us, p);
        AllConstantStep(ts, us);
      }
    } else {
      assert Folded(op, ts) == ts by { FoldedTwo(op, ts); }
    }
  }

  lemma FoldedTwo(op: CommOp, ts: seq<Tree>)
    requires |ts| == 2
    ensures Folded(op, ts) == ts
  {
  }

  lemma AllConstantStep(ts: seq<Tree>, us: seq<Tree>)
    requires |ts| > 2 && Pair(ts, |ts| - 2) && |us| == |ts| - 1
    requires us[|ts| - 2].Num? && forall i :: 0 <= i < |ts| - 2 ==> us[i] == ts[i]
    ensures AllConstant(us) <==> AllConstant(ts)
    ensures ConstantsLast(us) <==> ConstantsLast(ts)
  {
    var n := |ts| - 2;
    if AllConstant(us) {
      forall i | 0 <= i < |ts| ensures ts[i].Num? {
        assert i < n ==> us[i] == ts[i];
      }
    }
    if ConstantsLast(us) {
      forall i, j | 0 <= i < j < |ts| && ts[i].Num? ensures ts[j].Num? {
        assert j < n ==> us[i] == ts[i] && us[j] == ts[j];
      }
    }
  }

  /** Folding at the end gathers all constants just when they all stand there. */
  lemma {:induction false} FoldedFew(op: CommOp, ts: seq<Tree>)
    requires |ts| >= 2
    ensures FewConstants(Folded(op, ts)) <==> ConstantsLast(ts)
    decreases |ts|
  {
    hide Folded, LongApply;
    if |ts| > 2 {
      var n := |ts| - 2;
      FoldedStep(op, ts);
      var c := Ccexpr(op, ts[n], ts[n + 1]);
      if c.Some? {
        FoldedFew(op, Joined(ts, n, c.value));
        AllConstantStep(ts, Joined(ts, n, c.value));
      } else {
        UnfoldedFew(ts);
      }
    } else {
      FoldedTwo(op, ts);
    }
  }

  lemma UnfoldedFew(ts: seq<Tree>)
    requires |ts| > 2 && !Pair(ts, |ts| - 2)
    ensures FewConstants(ts) <==> ConstantsLast(ts)
  {
    assert !ts[|ts| - 2].Num? || !ts[|ts| - 1].Num?;
  }

  // ----- the folding loop -----

  /** Two constants, behind the first operand, with something else further on. */
  ghost predicate Misaligned(ts: seq<Tree>) {
    exists p, j :: 1 <= p && p + 1 < j < |ts| && Pair(ts, p) && !ts[j].Num?
  }

  predicate Pair(ts: seq<Tree>, p: nat)
    requires p + 1 < |ts|
  {
    ts[p].Num? && ts[p + 1].Num?
  }

  /** The folding loop from node p on down: whatever is folded, it is the last
      operand that leaves the list. */
  function FoldFrom(op: CommOp, ts: seq<Tree>, p: nat): (fs: seq<Tree>)
    requires p + 1 < |ts|
    ensures 2 <= |fs| <= |ts|
    decreases p
  {
    if p == 0 then ts
    else
      var c := Ccexpr(op, ts[p], ts[p + 1]);
      if c.None? then FoldFrom(op, ts, p - 1) else FoldFrom(op, Joined(ts, p, c.value), p - 1)
  }

  /** The operator nodes meanwhile: the constant that comes of a pair takes its
      node's place, and the last node leaves. */
  function FoldNodes(op: CommOp, ts: seq<Tree>, ns: seq<Tree>, p: nat): (ms: seq<Tree>)
    requires |ts| == |ns| + 1 && p < |ns| && AllChains(op, ns[..p + 1])
    ensures |ms| + 1 == |FoldFrom(op, ts, p)|
    decreases p
  {
    if p == 0 then ns
    else
      ChainsBelow(op, ns, p);
      var c := Ccexpr(op, ts[p], ts[p + 1]);
      FoldNodes(op, if c.None? then ts else Joined(ts, p, c.value), NodesNext(ts, ns, p, c), p - 1)
  }

  /** Node p gets its operands, or is replaced by the constant they fold to. */
  function NodesNext(ts: seq<Tree>, ns: seq<Tree>, p: nat, c: Option<Tree>): (us: seq<Tree>)
    requires |ts| == |ns| + 1 && p < |ns| && ns[p].Binary?
    ensures |us| == (if c.None? then |ns| else |ns| - 1) && us[..p] == ns[..p]
  {
    var us := if c.None? then ns[p := ns[p].(l := ts[p], r := ts[p + 1])] else ns[p := c.value][..|ns| - 1];
    assert forall i :: 0 <= i < p ==> us[i] == ns[i];
    us
  }

  lemma ChainsBelow(op: CommOp, ns: seq<Tree>, p: nat)
    requires p < |ns| && AllChains(op, ns[..p + 1])
    ensures IsChain(op, ns[p]) && AllChains(op, ns[..p])
  {
    assert forall i :: 0 <= i <= p ==> ns[..p + 1][i] == ns[i];
  }

  predicate AllChains(op: CommOp, ns: seq<Tree>) {
    forall i :: 0 <= i < |ns| ==> IsChain(op, ns[i])
  }

  lemma FoldFromMeaning(op: CommOp, ts: seq<Tree>, p: nat)
    requires p + 1 < |ts|
    ensures FoldFrom(op, ts, p) ==
            if p == 0 then ts
            else
              var c := Ccexpr(op, ts[p], ts[p + 1]);
              FoldFrom(op, if c.None? then ts else Joined(ts, p, c.value), p - 1)
  {
  }

  lemma FoldNodesMeaning(op: CommOp, ts: seq<Tree>, ns: seq<Tree>, p: nat)
    requires |ts| == |ns| + 1 && p < |ns| && AllChains(op, ns[..p + 1])
    ensures IsChain(op, ns[p])
    ensures p > 0 ==>
              var c := Ccexpr(op, ts[p], ts[p + 1]);
              var us := NodesNext(ts, ns, p, c);
              AllChains(op, us[..p])
              && FoldNodes(op, ts, ns, p) == FoldNodes(op, if c.None? then ts else Joined(ts, p, c.value), us, p - 1)
    ensures p == 0 ==> FoldNodes(op, ts, ns, p) == ns
  {
    ChainsBelow(op, ns, p);
  }

  /** Without pairs nothing is folded; with one, the list gets shorter and a node is lost. */
  lemma {:induction false} FoldFromPairs(op: CommOp, ts: seq<Tree>, p: nat)
    requires p + 1 < |ts|
    ensures (forall i :: 1 <= i <= p ==> !Pair(ts, i)) ==> FoldFrom(op, ts, p) == ts
    ensures (exists i :: 1 <= i <= p && Pair(ts, i)) ==> |FoldFrom(op, ts, p)| < |ts|
    decreases p
  {
    hide LongApply;
    if p > 0 && !Pair(ts, p) {
      FoldFromPairs(op, ts, p - 1);
    }
  }

  lemma {:induction false} FoldNodesPairs(op: CommOp, ts: seq<Tree>, ns: seq<Tree>, p: nat)
    requires |ts| == |ns| + 1 && p < |ns| && AllChains(op, ns) && forall i :: 1 <= i <= p ==> !Pair(ts, i)
    ensures AllChains(op, ns[..p + 1]) && AllChains(op, FoldNodes(op, ts, ns, p))
    decreases p
  {
    hide LongApply, FoldNodes;
    FoldNodesMeaning(op, ts, ns, p);
    if p > 0 {
      assert !Pair(ts, p);
      FoldNodesPairs(op, ts, NodesNext(ts, ns, p, None), p - 1);
    }
  }

  /** The loop folds just the constants at the end if and only if no two constants
      stand, behind the first operand, in front of another one; if they do, an
      operand too many leaves. */
  lemma {:induction false} FoldingExact(op: CommOp, ts: seq<Tree>)
    requires |ts| >= 2
    ensures !Misaligned(ts) ==> FoldFrom(op, ts, |ts| - 2) == Folded(op, ts)
    ensures Misaligned(ts) ==> |FoldFrom(op, ts, |ts| - 2)| < |Folded(op, ts)|
    decreases |ts|
  {
    hide LongApply, FoldFrom, Folded;
    var n := |ts| - 2;
    FoldFromMeaning(op, ts, n);
    if n > 0 {
      FoldedStep(op, ts);
      var c := Ccexpr(op, ts[n], ts[n + 1]);
      if c.Some? {
        var us := Joined(ts, n, c.value);
        FoldingExact(op, us);
        MisalignedLess(ts, us);
      } else {
        FoldFromPairs(op, ts, n);
        MisalignedNow(ts);
      }
    } else {
      FoldedTwo(op, ts);
    }
  }

  /** And then the nodes left over are operators still. */
  lemma {:induction false} AlignedNodes(op: CommOp, ts: seq<Tree>, ns: seq<Tree>)
    requires |ts| == |ns| + 1 && |ns| > 0 && AllChains(op, ns) && !Misaligned(ts)
    ensures AllChains(op, FoldNodes(op, ts, ns, |ns| - 1))
    decreases |ts|
  {
    hide LongApply, FoldNodes;
    var n := |ns| - 1;
    FoldNodesMeaning(op, ts, ns, n);
    if n > 0 {
      var c := Ccexpr(op, ts[n], ts[n + 1]);
      if c.Some? {
        var us := NodesNext(ts, ns, n, c);
        assert us == ns[..n] by { assert us[..n] == us; }
        MisalignedLess(ts, Joined(ts, n, c.value));
        AlignedNodes(op, Joined(ts, n, c.value), us);
      } else {
        MisalignedNow(ts);
        FoldNodesPairs(op, ts, ns, n);
      }
    }
  }

  lemma MisalignedLess(ts: seq<Tree>, us: seq<Tree>)
    requires |ts| > 2 && Pair(ts, |ts| - 2) && |us| == |ts| - 1
    requires us[|ts| - 2].Num? && forall i :: 0 <= i < |ts| - 2 ==> us[i] == ts[i]
    ensures Misaligned(ts) <==> Misaligned(us)
  {
    if Misaligned(ts) {
      var p, j :| 1 <= p && p + 1 < j < |ts| && Pair(ts, p) && !ts[j].Num?;
      assert Pair(us, p) && !us[j].Num?;
    }
    if Misaligned(us) {
      var p, j :| 1 <= p && p + 1 < j < |us| && Pair(us, p) && !us[j].Num?;
      assert Pair(ts, p) && !ts[j].Num?;
    }
  }

  lemma MisalignedNow(ts: seq<Tree>)
    requires |ts| > 2 && !Pair(ts, |ts| - 2)
    ensures Misaligned(ts) <==> exists i :: 1 <= i <= |ts| - 2 && Pair(ts, i)
  {
    if i :| 1 <= i <= |ts| - 2 && Pair(ts, i) {
      var j := if ts[|ts| - 1].Num? then |ts| - 2 else |ts| - 1;
      assert i + 1 < j && !ts[j].Num?;
    }
  }

  // ----- rebuilding -----

  /** Operators hang to the left: no right operand is of the chain. */
  predicate LeftLeaning(op: CommOp, t: Tree) {
    IsChain(op, t) ==> !IsChain(op, t.r) && LeftLeaning(op, t.l)
  }

  /** A node with its operands; a constant in a node's place has nowhere to show them. */
  function Hang(n: Tree, l: Tree, r: Tree): Tree {
    if n.Binary? then n.(l := l, r := r) else n
  }

  /** Operand i + 1 is put under node i. */
  function Rebuilt(fs: seq<Tree>, ns: seq<Tree>): Tree
    requires |fs| == |ns| + 1
  {
    var k := |ns|;
    if k == 0 then fs[0] else Hang(ns[k - 1], Rebuilt(fs[..k], ns[..k - 1]), fs[k])
  }

  lemma {:induction false} RebuiltShape(op: CommOp, fs: seq<Tree>, ns: seq<Tree>)
    requires |fs| == |ns| + 1 && AllChains(op, ns) && forall f :: f in fs ==> !IsChain(op, f)
    ensures var r := Rebuilt(fs, ns);
            Operands(op, r) == fs && LeftLeaning(op, r) && (|ns| > 0 ==> IsChain(op, r))
    decreases |ns|
  {
    var k := |ns|;
    if k == 0 {
      assert fs == [fs[0]];
    } else {
      RebuiltShape(op, fs[..k], ns[..k - 1]);
      assert fs == fs[..k] + [fs[k]];
      assert IsChain(op, ns[k - 1]);
    }
  }

  /** What is rebuilt never has more operands than were hung. */
  lemma {:induction false} RebuiltAtMost(op: CommOp, fs: seq<Tree>, ns: seq<Tree>)
    requires |fs| == |ns| + 1 && forall f :: f in fs ==> !IsChain(op, f)
    requires forall i :: 0 <= i < |ns| ==> ns[i].Num? || IsChain(op, ns[i])
    ensures |Operands(op, Rebuilt(fs, ns))| <= |fs|
    decreases |ns|
  {
    var k := |ns|;
    if k > 0 {
      RebuiltAtMost(op, fs[..k], ns[..k - 1]);
      assert fs[k] in fs && (ns[k - 1].Num? || IsChain(op, ns[k - 1]));
    }
  }

  /** What is rebuilt leans to the left and has the operands and their value. */
  lemma RebuiltCorrect(op: CommOp, fs: seq<Tree>, ns: seq<Tree>, env: Env)
    requires |fs| == |ns| + 1 && AllChains(op, ns) && forall f :: f in fs ==> !IsChain(op, f)
    ensures var r := Rebuilt(fs, ns);
            Value(env, r) == Total(op, Values(env, fs)) && Operands(op, r) == fs && LeftLeaning(op, r)
            && (|ns| > 0 ==> IsChain(op, r))
  {
    hide Rebuilt, Value, Total, Operands, LeftLeaning;
    RebuiltShape(op, fs, ns);
    ChainValue(env, op, Rebuilt(fs, ns));
  }

  lemma {:induction false} NodesKinds(op: CommOp, ts: seq<Tree>, ns: seq<Tree>, p: nat)
    requires |ts| == |ns| + 1 && p < |ns| && AllChains(op, ns[..p + 1])
    requires forall i :: 0 <= i < |ns| ==> ns[i].Num? || IsChain(op, ns[i])
    ensures forall n :: n in FoldNodes(op, ts, ns, p) ==> n.Num? || IsChain(op, n)
    decreases p
  {
    hide LongApply, FoldNodes;
    FoldNodesMeaning(op, ts, ns, p);
    if p > 0 {
      var c := Ccexpr(op, ts[p], ts[p + 1]);
      NodesKinds(op, if c.None? then ts else Joined(ts, p, c.value), NodesNext(ts, ns, p, c), p - 1);
    }
  }

  lemma {:induction false} FoldFromKinds(op: CommOp, ts: seq<Tree>, p: nat)
    requires p + 1 < |ts| && forall i :: 0 <= i < |ts| ==> !IsChain(op, ts[i])
    ensures forall f :: f in FoldFrom(op, ts, p) ==> !IsChain(op, f)
    decreases p
  {
    hide LongApply, FoldFrom;
    FoldFromMeaning(op, ts, p);
    if p > 0 {
      var c := Ccexpr(op, ts[p], ts[p + 1]);
      FoldFromKinds(op, if c.None? then ts else Joined(ts, p, c.value), p - 1);
    }
  }

  // ----- the lists the source works on -----

  /** Node p takes operands p and p + 1, and folds them if they are constants. */
  method FoldPair(op: CommOp, clist: array<Tree>, plist: array<Tree>, np: nat, p: nat) returns (np': nat)
    requires clist != plist && p < np <= plist.Length && np + 1 <= clist.Length && plist[p].Binary?
    modifies clist, plist
    ensures var ts, ns := old(clist[..np + 1]), old(plist[..np]);
            var c := Ccexpr(op, ts[p], ts[p + 1]);
            && np' == (if c.None? then np else np - 1)
            && clist[..np' + 1] == (if c.None? then ts else Joined(ts, p, c.value))
            && plist[..np'] == NodesNext(ts, ns, p, c)
  {
    hide Ccexpr;
    plist[p] := plist[p].(l := clist[p], r := clist[p + 1]);
    var c := Ccexpr(op, clist[p], clist[p + 1]);
    np' := np;
    if c.Some? {
      np' := np - 1;
      plist[p] := c.value;
      clist[p] := c.value;
    }
  }

  /** Folds constants from the end.  The source moves two pointers; they stay one place apart. */
  method FoldConstants(op: CommOp, clist: array<Tree>, plist: array<Tree>, np: nat) returns (np': nat)
    requires clist != plist && 1 <= np <= plist.Length && np + 1 <= clist.Length && AllChains(op, plist[..np])
    modifies clist, plist
    ensures 1 <= np' <= np && clist[..np' + 1] == FoldFrom(op, old(clist[..np + 1]), np - 1)
    ensures AllChains(op, old(plist[..np])[..np - 1 + 1])
    ensures plist[..np'] == FoldNodes(op, old(clist[..np + 1]), old(plist[..np]), np - 1)
  {
    hide LongApply, FoldFrom, FoldNodes, AllChains;
    assert plist[..np][..np - 1 + 1] == plist[..np];
    ghost var all := FoldFrom(op, clist[..np + 1], np - 1);
    ghost var nodes := FoldNodes(op, clist[..np + 1], plist[..np], np - 1);
    np' := np;
    var p := np - 1;
    while p > 0
      invariant 1 <= np' <= np && 0 <= p < np'
      invariant AllChains(op, plist[..np'][..p + 1])
      invariant FoldFrom(op, clist[..np' + 1], p) == all && FoldNodes(op, clist[..np' + 1], plist[..np'], p) == nodes
      decreases p
    {
      ghost var ts, ns := clist[..np' + 1], plist[..np'];
      FoldFromMeaning(op, ts, p);
      FoldNodesMeaning(op, ts, ns, p);
      np' := FoldPair(op, clist, plist, np', p);
      p := p - 1;
    }
    FoldFromMeaning(op, clist[..np' + 1], 0);
    FoldNodesMeaning(op, clist[..np' + 1], plist[..np'], 0);
  }

  /** Hangs the operands under the nodes, the first two deepest. */
  method Rebuild(clist: array<Tree>, plist: array<Tree>, np: nat) returns (s: Tree)
    requires clist != plist && np <= plist.Length && np + 1 <= clist.Length
    modifies plist
    ensures s == Rebuilt(clist[..np + 1], old(plist[..np]))
  {
    ghost var ns := plist[..np];
    s := clist[0];
    var p := 0;
    while p < np
      invariant p <= np
      invariant forall i :: p <= i < np ==> plist[i] == ns[i]
      invariant s == Rebuilt(clist[..p + 1], ns[..p])
    {
      RebuiltNext(clist[..p + 2], ns[..p + 1]);
      assert clist[..p + 2][..p + 1] == clist[..p + 1] && ns[..p + 1][..p] == ns[..p];
      plist[p] := Hang(plist[p], s, clist[p + 1]);
      s := plist[p];
      p := p + 1;
    }
    assert ns[..np] == ns;
  }

  lemma RebuiltNext(fs: seq<Tree>, ns: seq<Tree>)
    requires |fs| == |ns| + 1 && |ns| > 0
    ensures var k := |ns|;
            Hang(ns[k - 1], Rebuilt(fs[..k], ns[..k - 1]), fs[k]) == Rebuilt(fs, ns)
  {
  }
}
