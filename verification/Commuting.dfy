/** The canonical form of expression trees. */
module Commuting {
  import opened Options
  import opened Machine
  import opened Sequences
  import opened Words
  import opened Canon
  import opened Ordering
  import opened Folding

  // ----- chains, from their operands on -----

  /** Operands sorted, folded and hung under the nodes. */
  function Assembled(op: CommOp, cs: seq<Tree>, ns: seq<Tree>): Tree
    requires |cs| == |ns| + 1 && |ns| > 0 && AllChains(op, ns)
  {
    var ss := Sorted(cs);
    assert ns[..|ns| - 1 + 1] == ns;
    Rebuilt(FoldFrom(op, ss, |ns| - 1), FoldNodes(op, ss, ns, |ns| - 1))
  }

  /** An operand that is neither marked nor a constant. */
  predicate Loose(t: Tree) { !IsVHard(t) && !t.Num? }

  /** Of the marked operands, in the order they stand, two constants are neighbours
      behind the first, and some other operand comes later or is not marked. */
  ghost predicate Clash(cs: seq<Tree>) {
    var hs := Hards(cs);
    exists p :: 1 <= p && p + 1 < |hs| && Pair(hs, p)
                && ((exists i :: 0 <= i < |cs| && Loose(cs[i])) || exists j :: p + 1 < j < |hs| && !hs[j].Num?)
  }

  lemma SameElements(a: seq<Tree>, b: seq<Tree>)
    requires multiset(a) == multiset(b)
    ensures forall x :: x in a <==> x in b
  {
    forall x ensures x in a <==> x in b {
      assert x in a <==> x in multiset(a);
      assert x in b <==> x in multiset(b);
    }
  }

  lemma LooseSame(a: seq<Tree>, b: seq<Tree>)
    requires multiset(a) == multiset(b) && exists i :: 0 <= i < |a| && Loose(a[i])
    ensures exists i :: 0 <= i < |b| && Loose(b[i])
  {
    SameElements(a, b);
    var i :| 0 <= i < |a| && Loose(a[i]);
    assert a[i] in b;
  }

  /** Which operands will be folded wrongly can be told before they are sorted. */
  lemma ClashExact(cs: seq<Tree>)
    ensures Misaligned(Sorted(cs)) <==> Clash(cs)
  {
    hide Sorted, Hards, Ordered;
    var ss, hs := Sorted(cs), Hards(cs);
    SortedCorrect(cs);
    SortedFront(cs);
    if Misaligned(ss) {
      var p, j :| 1 <= p && p + 1 < j < |ss| && Pair(ss, p) && !ss[j].Num?;
      OrderedPair(ss, p + 1, j);
      FrontPair(ss, hs, p);
      if j < |hs| {
        assert hs[j] == ss[j];
      } else {
        assert Loose(ss[j]);
        LooseSame(ss, cs);
      }
    }
    if Clash(cs) {
      var p :| 1 <= p && p + 1 < |hs| && Pair(hs, p)
               && ((exists i :: 0 <= i < |cs| && Loose(cs[i])) || exists j :: p + 1 < j < |hs| && !hs[j].Num?);
      FrontPair(ss, hs, p);
      if j :| p + 1 < j < |hs| && !hs[j].Num? {
        assert !ss[j].Num?;
      } else {
        LooseSame(cs, ss);
        var i :| 0 <= i < |ss| && Loose(ss[i]);
        assert i >= |hs| by { FrontMarked(cs, i); }
      }
    }
  }

  lemma OrderedPair(ss: seq<Tree>, i: nat, j: nat)
    requires Ordered(ss) && i < j < |ss| && ss[i].Num? && !ss[j].Num?
    ensures IsVHard(ss[i])
  {
    hide MayPrecede;
    HarderKinds(ss[j], ss[i]);
  }

  lemma FrontPair(ss: seq<Tree>, hs: seq<Tree>, p: nat)
    requires |hs| <= |ss| && ss[..|hs|] == hs && forall i :: |hs| <= i < |ss| ==> !IsVHard(ss[i])
    requires p + 1 < |ss|
    ensures p + 1 < |hs| ==> (Pair(ss, p) <==> Pair(hs, p))
    ensures IsVHard(ss[p + 1]) ==> p + 1 < |hs|
  {
  }

  lemma {:induction false} HardsMarked(ts: seq<Tree>)
    ensures forall h :: h in Hards(ts) ==> IsVHard(h) && h in ts
  {
    if ts != [] {
      HardsMarked(ts[..|ts| - 1]);
    }
  }

  lemma FrontMarked(cs: seq<Tree>, i: nat)
    requires i < |Sorted(cs)|
    ensures i < |Hards(cs)| ==> IsVHard(Sorted(cs)[i])
  {
    hide Sorted, Hards;
    SortedFront(cs);
    HardsMarked(cs);
    if i < |Hards(cs)| {
      SortedCorrect(cs);
      assert Hards(cs)[i] == Sorted(cs)[i] && Hards(cs)[i] in Hards(cs);
    }
  }

  /** A chain comes out with just its operands sorted and folded at the end, if and
      only if none of them clash. */
  lemma AssembledExact(op: CommOp, cs: seq<Tree>, ns: seq<Tree>)
    requires |cs| == |ns| + 1 && |ns| > 0 && AllChains(op, ns) && forall i :: 0 <= i < |cs| ==> !IsChain(op, cs[i])
    ensures Operands(op, Assembled(op, cs, ns)) == Folded(op, Sorted(cs)) <==> !Clash(cs)
    ensures !Clash(cs) ==> LeftLeaning(op, Assembled(op, cs, ns)) && IsChain(op, Assembled(op, cs, ns))
    ensures !Clash(cs) ==> forall env :: Value(env, Assembled(op, cs, ns)) == Total(op, Values(env, Folded(op, Sorted(cs))))
  {
    hide Sorted, FoldFrom, FoldNodes, Folded, Operands, Value, Values, Total, Rebuilt, LeftLeaning, Misaligned, Clash;
    var ss := Sorted(cs);
    SortedCorrect(cs);
    SameElements(ss, cs);
    assert forall i :: 0 <= i < |ss| ==> ss[i] in cs;
    ClashExact(cs);
    FoldingExact(op, ss);
    assert ns[..|ns| - 1 + 1] == ns;
    var fs, ms := FoldFrom(op, ss, |ns| - 1), FoldNodes(op, ss, ns, |ns| - 1);
    FoldFromKinds(op, ss, |ns| - 1);
    if Clash(cs) {
      NodesKinds(op, ss, ns, |ns| - 1);
      RebuiltAtMost(op, fs, ms);
    } else {
      AlignedNodes(op, ss, ns);
      RebuiltShape(op, fs, ms);
      forall env ensures Value(env, Rebuilt(fs, ms)) == Total(op, Values(env, fs)) {
        RebuiltCorrect(op, fs, ms, env);
      }
    }
  }

  // ----- the whole tree -----

  function SwapRel(op: RelOp): RelOp {
    match op
    case Great => Less
    case GreatEq => LessEq
    case Less => Great
    case LessEq => GreatEq
    case _ => op
  }

  /** What commute makes of a tree. */
  function Commuted(t: Tree): Tree
    decreases Size(t), 1
  {
    match t
    case Num(_, _) => t
    case Leaf(_, _, _) => t
    case Unary(_, t1, _) => t.(t := Commuted(t1))
    case Binary(Comm(c), _, _, _) =>
      NodesAreChains(c, t);
      Assembled(c, Inner(c, t), Nodes(c, t))
    case Binary(Relation(op), l, r, su) =>
      if Harder(r, l) then Binary(Relation(SwapRel(op)), Commuted(r), Commuted(l), su)
      else Binary(Relation(op), Commuted(l), Commuted(r), su)
    case Binary(Other(_), l, r, _) => t.(l := Commuted(l), r := Commuted(r))
  }

  /** The operands of a chain, each commuted on its own. */
  function Inner(op: CommOp, t: Tree): (cs: seq<Tree>)
    requires IsChain(op, t)
    ensures |cs| == |Operands(op, t)|
    decreases Size(t), 0
  {
    OperandsSmaller(op, t);
    var os := Operands(op, t);
    seq(|os|, i requires 0 <= i < |os| => assert os[i] in os; Commuted(os[i]))
  }

  lemma NodesAreChains(op: CommOp, t: Tree)
    ensures AllChains(op, Nodes(op, t)) && (IsChain(op, t) ==> |Nodes(op, t)| > 0)
  {
    var ns := Nodes(op, t);
    assert forall i :: 0 <= i < |ns| ==> ns[i] in ns;
  }

  /** A property of every chain in a tree. */
  ghost predicate EveryChain(p: (CommOp, Tree) -> bool, t: Tree)
    decreases Size(t)
  {
    match t
    case Num(_, _) => true
    case Leaf(_, _, _) => true
    case Unary(_, t1, _) => EveryChain(p, t1)
    case Binary(Comm(c), _, _, _) =>
      OperandsSmaller(c, t);
      p(c, t) && forall o :: o in Operands(c, t) ==> EveryChain(p, o)
    case Binary(_, l, r, _) => EveryChain(p, l) && EveryChain(p, r)
  }

  ghost predicate Unclashed(op: CommOp, t: Tree) {
    IsChain(op, t) && !Clash(Inner(op, t))
  }

  /** No chain has operands that clash. */
  ghost predicate Aligned(t: Tree) { EveryChain(Unclashed, t) }

  predicate InOrder(op: CommOp, t: Tree) { LeftLeaning(op, t) && Ordered(Operands(op, t)) }

  /** Every chain leans to the left, harder operands first. */
  ghost predicate Canonical(t: Tree) { EveryChain(InOrder, t) }

  predicate Gathered(op: CommOp, t: Tree) { FewConstants(Operands(op, t)) }

  ghost predicate SameValue(t: Tree, r: Tree) {
    forall env :: Value(env, r) == Value(env, t)
  }

  /** Commuting does not change what kind of operand a tree is. */
  ghost predicate SameTop(t: Tree, r: Tree) {
    (r.Num? <==> t.Num?) && (t.Num? ==> r == t) && forall op :: IsChain(op, r) <==> IsChain(op, t)
  }

  /** What is promised of t: the same value in every environment, and every chain in
      canonical form; a chain is all constants only if it was. */
  ghost predicate Kept(t: Tree, r: Tree) {
    && SameValue(t, r) && Canonical(r) && SameTop(t, r)
    && forall op :: IsChain(op, t) ==> (AllConstant(Operands(op, r)) <==> AllConstant(Operands(op, t)))
  }

  // ----- what comes of one chain -----

  lemma FoldFromLast(op: CommOp, fs: seq<Tree>, ns: seq<Tree>)
    requires |fs| == |ns| + 1 && |ns| > 0 && (ns[|ns| - 1].Num? || IsChain(op, ns[|ns| - 1]))
    ensures Rebuilt(fs, ns).Num? || IsChain(op, Rebuilt(fs, ns))
  {
  }

  /** A tree does not become a chain of another operator, and a constant stays. */
  lemma CommutedTop(op: CommOp, t: Tree)
    ensures IsChain(op, Commuted(t)) ==> IsChain(op, t)
    ensures t.Num? ==> Commuted(t) == t
  {
    hide Assembled, Inner;
    if t.Binary? && t.op.Comm? {
      AssembledTop(t.op.c, t);
    }
  }

  lemma AssembledTop(op: CommOp, t: Tree)
    requires IsChain(op, t)
    ensures Commuted(t).Num? || IsChain(op, Commuted(t))
  {
    hide FoldFrom, FoldNodes, Rebuilt, Sorted, Inner;
    NodesAreChains(op, t);
    var ns := Nodes(op, t);
    var ss := Sorted(Inner(op, t));
    SortedCorrect(Inner(op, t));
    assert ns[..|ns| - 1 + 1] == ns;
    NodesKinds(op, ss, ns, |ns| - 1);
    var ms := FoldNodes(op, ss, ns, |ns| - 1);
    assert ms[|ms| - 1] in ms;
    FoldFromLast(op, FoldFrom(op, ss, |ns| - 1), ms);
  }

  lemma InnerAt(op: CommOp, t: Tree, i: nat)
    requires IsChain(op, t) && i < |Operands(op, t)|
    ensures Inner(op, t)[i] == Commuted(Operands(op, t)[i]) && !IsChain(op, Inner(op, t)[i])
    ensures Operands(op, t)[i] in Operands(op, t) && Size(Operands(op, t)[i]) < Size(t)
  {
    hide Commuted, Operands;
    OperandsSmaller(op, t);
    assert Operands(op, t)[i] in Operands(op, t);
    CommutedTop(op, Operands(op, t)[i]);
  }

  /** Any chain at all comes out with just its operands, commuted and sorted, and the
      constants at their end folded, if and only if no operands clash. */
  lemma ChainExact(op: CommOp, t: Tree)
    requires IsChain(op, t)
    ensures Operands(op, Commuted(t)) == Folded(op, Sorted(Inner(op, t))) <==> !Clash(Inner(op, t))
    ensures !Clash(Inner(op, t)) ==> LeftLeaning(op, Commuted(t)) && IsChain(op, Commuted(t))
    ensures !Clash(Inner(op, t)) ==>
              forall env :: Value(env, Commuted(t)) == Total(op, Values(env, Folded(op, Sorted(Inner(op, t)))))
  {
    hide Assembled, Inner, Operands, LeftLeaning, Value, Values, Total, Folded, Sorted, Clash;
    NodesAreChains(op, t);
    forall i | 0 <= i < |Inner(op, t)| ensures !IsChain(op, Inner(op, t)[i]) {
      InnerAt(op, t, i);
    }
    AssembledExact(op, Inner(op, t), Nodes(op, t));
  }

  /** The operands before and after: each keeps its promise. */
  ghost predicate EachKept(op: CommOp, t: Tree)
    requires IsChain(op, t)
  {
    forall i :: 0 <= i < |Operands(op, t)| ==> Kept(Operands(op, t)[i], Inner(op, t)[i])
  }

  lemma ChainKeepsValue(op: CommOp, t: Tree)
    requires IsChain(op, t) && !Clash(Inner(op, t)) && EachKept(op, t)
    ensures SameValue(t, Commuted(t))
  {
    hide Inner, Operands, Value, Values, Total, Folded, Sorted, Clash, Commuted, Canonical, SameTop, LeftLeaning, Ordered;
    var os, cs := Operands(op, t), Inner(op, t);
    ChainExact(op, t);
    SortedCorrect(cs);
    forall env ensures Value(env, Commuted(t)) == Value(env, t) {
      ChainValue(env, op, t);
      SameValues(env, os, cs);
      ValuesPermutation(env, Sorted(cs), cs);
      TotalPermutation(op, Values(env, Sorted(cs)), Values(env, cs));
      FoldedValue(op, Sorted(cs), env);
    }
  }

  lemma SameValues(env: Env, os: seq<Tree>, cs: seq<Tree>)
    requires |os| == |cs| && forall i :: 0 <= i < |os| ==> SameValue(os[i], cs[i])
    ensures Values(env, os) == Values(env, cs)
  {
    hide Value;
    forall i | 0 <= i < |cs| ensures Value(env, os[i]) == Value(env, cs[i]) {
      assert SameValue(os[i], cs[i]);
    }
  }

  /** A property of chains that the result has, and all its operands' chains. */
  lemma EveryAssembled(q: (CommOp, Tree) -> bool, op: CommOp, t: Tree)
    requires IsChain(op, t) && !Clash(Inner(op, t)) && q(op, Commuted(t))
    requires forall i :: 0 <= i < |Inner(op, t)| ==> EveryChain(q, Inner(op, t)[i])
    ensures EveryChain(q, Commuted(t))
  {
    hide Inner, Operands, Value, Values, Total, Folded, Sorted, Clash, Commuted, EveryChain, LeftLeaning, Ordered;
    var cs, r := Inner(op, t), Commuted(t);
    ChainExact(op, t);
    SortedCorrect(cs);
    SameElements(Sorted(cs), cs);
    forall i | 0 <= i < |cs| ensures EveryChain(q, Sorted(cs)[i]) {
      assert Sorted(cs)[i] in cs;
    }
    forall c: Tree | c.Num? ensures EveryChain(q, c) {
      NumEvery(q, c);
    }
    FoldedShape(op, Sorted(cs), o => EveryChain(q, o));
    EveryOf(q, op, r);
  }

  lemma NumEvery(q: (CommOp, Tree) -> bool, c: Tree)
    requires c.Num?
    ensures EveryChain(q, c)
  {
  }

  lemma EveryOf(q: (CommOp, Tree) -> bool, op: CommOp, t: Tree)
    requires IsChain(op, t)
    ensures EveryChain(q, t) ==> q(op, t) && forall i :: 0 <= i < |Operands(op, t)| ==> EveryChain(q, Operands(op, t)[i])
    ensures q(op, t) && (forall i :: 0 <= i < |Operands(op, t)| ==> EveryChain(q, Operands(op, t)[i])) ==> EveryChain(q, t)
  {
    hide Operands;
    OperandsSmaller(op, t);
    var os := Operands(op, t);
    assert forall i :: 0 <= i < |os| ==> os[i] in os;
    assert t.op == Comm(op);
  }

  lemma ChainKept(op: CommOp, t: Tree)
    requires IsChain(op, t) && !Clash(Inner(op, t)) && EachKept(op, t)
    ensures Kept(t, Commuted(t))
  {
    hide Inner, Operands, Value, Values, Total, Folded, Sorted, Clash, Commuted, EveryChain, LeftLeaning, Ordered, AllConstant;
    var cs, r := Inner(op, t), Commuted(t);
    ChainKeepsValue(op, t);
    ChainExact(op, t);
    SortedCorrect(cs);
    FoldedShape(op, Sorted(cs), o => true);
    forall i | 0 <= i < |cs| ensures EveryChain(InOrder, cs[i]) {
      assert Kept(Operands(op, t)[i], cs[i]);
    }
    EveryAssembled(InOrder, op, t);
    ConstantsSame(op, t);
  }

  lemma ConstantsSame(op: CommOp, t: Tree)
    requires IsChain(op, t) && EachKept(op, t)
    ensures AllConstant(Sorted(Inner(op, t))) <==> AllConstant(Operands(op, t))
  {
    hide Inner, Operands, SameValue, Canonical, Sorted;
    var cs := Inner(op, t);
    SortedCorrect(cs);
    var ss := Sorted(cs);
    SameElements(ss, cs);
    assert forall i :: 0 <= i < |ss| ==> ss[i] in cs;
    assert forall i :: 0 <= i < |cs| ==> cs[i] in ss;
    assert forall i :: 0 <= i < |cs| ==> Kept(Operands(op, t)[i], cs[i]);
  }

  // ----- the main results -----

  /** Commuting keeps the value in every environment, and brings every chain into
      canonical form, whatever the numbers of the operands, if no chain has any that clash. */
  lemma {:induction false} CommutedKept(t: Tree)
    requires Aligned(t)
    ensures Kept(t, Commuted(t))
    decreases Size(t)
  {
    hide Commuted, Kept;
    match t
    case Num(_, _) => OtherKept(t);
    case Leaf(_, _, _) => OtherKept(t);
    case Unary(_, t1, _) =>
      CommutedKept(t1);
      OtherKept(t);
    case Binary(Comm(c), _, _, _) =>
      EveryOf(Unclashed, c, t);
      forall i | 0 <= i < |Operands(c, t)| ensures Kept(Operands(c, t)[i], Inner(c, t)[i]) {
        InnerAt(c, t, i);
        CommutedKept(Operands(c, t)[i]);
      }
      ChainKept(c, t);
    case Binary(_, l, r, _) =>
      CommutedKept(l);
      CommutedKept(r);
      OtherKept(t);
  }

  /** A comparison turned round says the same. */
  lemma Turned(op: RelOp, l: int, r: int)
    ensures Holds(op, false, l, r) == Holds(SwapRel(op), false, r, l)
  {
  }

  /** What is no chain keeps its promise if its parts do. */
  lemma OtherKept(t: Tree)
    requires t.Binary? ==> !t.op.Comm? && Kept(t.l, Commuted(t.l)) && Kept(t.r, Commuted(t.r))
    requires t.Unary? ==> Kept(t.t, Commuted(t.t))
    ensures Kept(t, Commuted(t))
  {
    forall env ensures Value(env, Commuted(t)) == Value(env, t) {
      OtherValue(env, t);
    }
    OtherShape(t);
  }

  lemma OtherShape(t: Tree)
    requires t.Binary? ==> !t.op.Comm? && Canonical(Commuted(t.l)) && Canonical(Commuted(t.r))
    requires t.Unary? ==> Canonical(Commuted(t.t))
    ensures Canonical(Commuted(t)) && SameTop(t, Commuted(t)) && forall op :: !IsChain(op, t)
  {
    hide InOrder, Harder;
  }

  lemma OtherValue(env: Env, t: Tree)
    requires t.Binary? ==> !t.op.Comm? && SameValue(t.l, Commuted(t.l)) && SameValue(t.r, Commuted(t.r))
    requires t.Unary? ==> SameValue(t.t, Commuted(t.t))
    ensures Value(env, Commuted(t)) == Value(env, t)
  {
    hide Harder, Holds, SwapRel;
    if t.Binary? {
      assert Value(env, Commuted(t.l)) == Value(env, t.l) && Value(env, Commuted(t.r)) == Value(env, t.r);
      if t.op.Relation? {
        Turned(t.op.r, Value(env, t.l), Value(env, t.r));
      }
    } else if t.Unary? {
      assert Value(env, Commuted(t.t)) == Value(env, t.t);
    }
  }

  predicate Marked(t: Tree) { t.Num? && IsVHard(t) }

  predicate OneMarked(op: CommOp, t: Tree) {
    var os := Operands(op, t);
    forall i, j :: 0 <= i < j < |os| ==> !(Marked(os[i]) && Marked(os[j]))
  }

  lemma {:induction false} HardsTwo(ts: seq<Tree>, p: nat, q: nat) returns (i: nat, j: nat)
    requires p < q < |Hards(ts)|
    ensures i < j < |ts| && ts[i] == Hards(ts)[p] && ts[j] == Hards(ts)[q]
  {
    var n := |ts| - 1;
    var hs := Hards(ts[..n]);
    if q < |hs| {
      i, j := HardsTwo(ts[..n], p, q);
    } else {
      HardsMarked(ts[..n]);
      assert hs[p] in hs;
      i :| 0 <= i < n && ts[..n][i] == hs[p];
      j := n;
    }
  }

  lemma OneMarkedUnclashed(op: CommOp, t: Tree)
    requires IsChain(op, t) && OneMarked(op, t) && EachKept(op, t)
    ensures !Clash(Inner(op, t))
  {
    hide Inner, Operands, SameValue, Canonical, Hards;
    var cs, hs := Inner(op, t), Hards(Inner(op, t));
    HardsMarked(cs);
    forall p: nat | 1 <= p && p + 1 < |hs| ensures !Pair(hs, p) {
      var i, j := HardsTwo(cs, p, p + 1);
      assert hs[p] in hs && hs[p + 1] in hs;
      assert Kept(Operands(op, t)[i], cs[i]) && Kept(Operands(op, t)[j], cs[j]);
    }
  }

  /** With at most one marked constant in each chain no operands clash. */
  lemma {:induction false} OneMarkedAligned(t: Tree)
    requires EveryChain(OneMarked, t)
    ensures Aligned(t)
    decreases Size(t)
  {
    hide Kept, OneMarked, Unclashed;
    match t
    case Num(_, _) =>
    case Leaf(_, _, _) =>
    case Unary(_, t1, _) => OneMarkedAligned(t1);
    case Binary(Comm(c), _, _, _) =>
      EveryOf(OneMarked, c, t);
      EveryOf(Unclashed, c, t);
      forall i | 0 <= i < |Operands(c, t)|
        ensures Kept(Operands(c, t)[i], Inner(c, t)[i]) && Aligned(Operands(c, t)[i])
      {
        InnerAt(c, t, i);
        OneMarkedAligned(Operands(c, t)[i]);
        CommutedKept(Operands(c, t)[i]);
      }
      OneMarkedUnclashed(c, t);
      UnclashedMeaning(c, t);
    case Binary(_, l, r, _) =>
      OneMarkedAligned(l);
      OneMarkedAligned(r);
  }

  predicate NoMarked(op: CommOp, t: Tree) {
    var os := Operands(op, t);
    forall i :: 0 <= i < |os| ==> !Marked(os[i])
  }

  /** In order, constants that are not marked all stand at the end. */
  lemma OrderedConstants(ts: seq<Tree>)
    requires Ordered(ts) && forall i :: 0 <= i < |ts| ==> !Marked(ts[i])
    ensures ConstantsLast(ts)
  {
    hide MayPrecede;
    forall i, j | 0 <= i < j < |ts| && ts[i].Num? ensures ts[j].Num? {
      HarderKinds(ts[j], ts[i]);
    }
  }

  lemma GatheredChain(op: CommOp, t: Tree)
    requires IsChain(op, t) && NoMarked(op, t) && EachKept(op, t) && !Clash(Inner(op, t))
    ensures Gathered(op, Commuted(t))
  {
    hide Inner, Operands, SameValue, Canonical, Sorted, Ordered, Clash, Value, FewConstants, Folded, LeftLeaning, Commuted;
    var cs := Inner(op, t);
    ChainExact(op, t);
    SortedCorrect(cs);
    SameElements(Sorted(cs), cs);
    forall i | 0 <= i < |cs| ensures !Marked(cs[i]) {
      assert Kept(Operands(op, t)[i], cs[i]);
    }
    forall i | 0 <= i < |cs| ensures !Marked(Sorted(cs)[i]) {
      assert Sorted(cs)[i] in cs;
    }
    OrderedConstants(Sorted(cs));
    FoldedFew(op, Sorted(cs));
  }

  lemma NoneThenOne(op: CommOp, t: Tree)
    requires NoMarked(op, t)
    ensures OneMarked(op, t)
  {
  }

  lemma {:induction false} NoMarkedOne(t: Tree)
    requires EveryChain(NoMarked, t)
    ensures EveryChain(OneMarked, t)
    decreases Size(t)
  {
    hide NoMarked, OneMarked, Operands;
    match t
    case Num(_, _) =>
    case Leaf(_, _, _) =>
    case Unary(_, t1, _) => NoMarkedOne(t1);
    case Binary(Comm(c), _, _, _) =>
      EveryOf(NoMarked, c, t);
      EveryOf(OneMarked, c, t);
      NoneThenOne(c, t);
      forall i | 0 <= i < |Operands(c, t)| ensures EveryChain(OneMarked, Operands(c, t)[i]) {
        InnerAt(c, t, i);
        NoMarkedOne(Operands(c, t)[i]);
      }
    case Binary(_, l, r, _) =>
      NoMarkedOne(l);
      NoMarkedOne(r);
  }

  /** If no constants are marked, every chain's are gathered into one at its end, but
      for a chain of nothing but constants, which keeps two. */
  lemma {:induction false} CommutedGathers(t: Tree)
    requires EveryChain(NoMarked, t)
    ensures EveryChain(Gathered, Commuted(t))
    decreases Size(t)
  {
    hide Kept, NoMarked, Unclashed, Gathered;
    match t
    case Num(_, _) =>
    case Leaf(_, _, _) =>
    case Unary(_, t1, _) => CommutedGathers(t1);
    case Binary(Comm(c), _, _, _) =>
      hide Commuted;
      EveryOf(NoMarked, c, t);
      NoMarkedOne(t);
      OneMarkedAligned(t);
      EveryOf(Unclashed, c, t);
      UnclashedMeaning(c, t);
      forall i | 0 <= i < |Operands(c, t)|
        ensures Kept(Operands(c, t)[i], Inner(c, t)[i]) && EveryChain(Gathered, Inner(c, t)[i])
      {
        InnerAt(c, t, i);
        CommutedKept(Operands(c, t)[i]);
        CommutedGathers(Operands(c, t)[i]);
      }
      GatheredChain(c, t);
      EveryAssembled(Gathered, c, t);
    case Binary(_, l, r, _) =>
      CommutedGathers(l);
      CommutedGathers(r);
  }

  lemma UnclashedMeaning(op: CommOp, t: Tree)
    requires IsChain(op, t)
    ensures Unclashed(op, t) <==> !Clash(Inner(op, t))
  {
  }

  // ----- when operands do clash -----

  lemma {:induction false} PassNothing(ts: seq<Tree>, p: nat, q: nat)
    requires p <= q <= |ts| && p < |ts| && forall j :: p < j < |ts| ==> !Harder(ts[j], ts[p])
    ensures Pass(ts, p, q) == ts
    decreases |ts| - q
  {
    hide Harder;
    if q < |ts| {
      assert Swap(ts, p, p) == ts;
      PassNothing(ts, p, q + 1);
    }
  }

  lemma {:induction false} SortedNothing(ts: seq<Tree>, p: nat)
    requires p <= |ts| && forall i, j :: 0 <= i < j < |ts| ==> !Harder(ts[j], ts[i])
    ensures SortedFrom(ts, p) == ts
    decreases |ts| - p
  {
    hide Harder, Pass;
    if p < |ts| {
      PassNothing(ts, p, p);
      SortedNothing(ts, p + 1);
    }
  }

  /** ((1 + 2) + 3) + x, the constants marked. */
  function Marks(x: Tree): Tree {
    var plus := Comm(Add);
    Binary(plus, Binary(plus, Binary(plus, Num(1, VHard), Num(2, VHard), Level(1)), Num(3, VHard), Level(2)), x, Level(3))
  }

  lemma MarksParts(x: Tree)
    requires !IsChain(Add, x)
    ensures Operands(Add, Marks(x)) == [Num(1, VHard), Num(2, VHard), Num(3, VHard), x]
    ensures Nodes(Add, Marks(x)) == [Marks(x).l.l, Marks(x).l, Marks(x)]
  {
    var a, b, c := Num(1, VHard), Num(2, VHard), Num(3, VHard);
    assert Operands(Add, a) == [a] && Operands(Add, b) == [b] && Operands(Add, c) == [c] && Operands(Add, x) == [x];
    assert Nodes(Add, a) == [] && Nodes(Add, b) == [] && Nodes(Add, c) == [] && Nodes(Add, x) == [];
    assert Operands(Add, Marks(x).l.l) == [a, b] && Nodes(Add, Marks(x).l.l) == [Marks(x).l.l];
    assert Operands(Add, Marks(x).l) == [a, b, c] && Nodes(Add, Marks(x).l) == [Marks(x).l.l, Marks(x).l];
  }

  lemma MarksInner(x: Tree)
    requires x.Leaf?
    ensures Inner(Add, Marks(x)) == Operands(Add, Marks(x))
  {
    MarksParts(x);
    var os := Operands(Add, Marks(x));
    forall i | 0 <= i < |os| ensures Inner(Add, Marks(x))[i] == os[i] {
      InnerAt(Add, Marks(x), i);
    }
  }

  lemma MarksFolded(x: Tree, ns: seq<Tree>)
    requires x.Leaf? && |ns| == 3 && AllChains(Add, ns)
    ensures var ts := [Num(1, VHard), Num(2, VHard), Num(3, VHard), x];
            && ns[..3] == ns
            && FoldFrom(Add, ts, 2) == [Num(1, VHard), Num(5, VHard), Num(3, VHard)]
            && FoldNodes(Add, ts, ns, 2) == [ns[0], Num(5, VHard)]
  {
    hide FoldFrom, FoldNodes;
    var ts := [Num(1, VHard), Num(2, VHard), Num(3, VHard), x];
    var us := Joined(ts, 1, Num(5, VHard));
    var ms := NodesNext(ts, ns, 2, None);
    FoldFromMeaning(Add, ts, 2);
    FoldFromMeaning(Add, ts, 1);
    FoldFromMeaning(Add, us, 0);
    FoldNodesMeaning(Add, ts, ns, 2);
    FoldNodesMeaning(Add, ts, ms, 1);
    FoldNodesMeaning(Add, us, NodesNext(ts, ms, 1, Some(Num(5, VHard))), 0);
    assert us == [Num(1, VHard), Num(5, VHard), Num(3, VHard)];
    assert ms[0] == ns[..2][0];
    assert NodesNext(ts, ms, 1, Some(Num(5, VHard))) == [ns[0], Num(5, VHard)];
  }

  /** Here the node that is left on top has been replaced by the constant 5: the sum
      is 5, and right only where x is -1. */
  lemma MarkedConstants(x: Tree, env: Env)
    requires x.Leaf? && !IsVHard(x)
    ensures Clash(Inner(Add, Marks(x))) && Commuted(Marks(x)) == Num(5, VHard)
    ensures Value(env, Commuted(Marks(x))) == Value(env, Marks(x)) <==> Value(env, x) == -1
  {
    var ts := [Num(1, VHard), Num(2, VHard), Num(3, VHard), x];
    MarksCommuted(x);
    MarksHards(x);
    assert Hards(ts)[1].Num? && Hards(ts)[2].Num? && Pair(Hards(ts), 1) && Loose(ts[3]);
    assert Value(env, Marks(x)) == Short(6 + Value(env, x)) by { MarksValue(env, x); }
    ValueShort(env, x);
  }

  lemma MarksHards(x: Tree)
    requires !IsVHard(x)
    ensures var ts := [Num(1, VHard), Num(2, VHard), Num(3, VHard), x];
            Hards(ts) == ts[..3]
  {
    var ts := [Num(1, VHard), Num(2, VHard), Num(3, VHard), x];
    assert ts[..3][..2] == ts[..2] && ts[..2][..1] == ts[..1] && ts[..1][..0] == [];
    assert Hards(ts[..1]) == ts[..1];
    assert Hards(ts[..2]) == ts[..2];
    assert Hards(ts[..3]) == ts[..3];
  }

  lemma MarksValue(env: Env, x: Tree)
    ensures Value(env, Marks(x)) == Short(6 + Value(env, x))
  {
    assert Value(env, Marks(x).l.l) == 3;
    assert Value(env, Marks(x).l) == 6;
  }

  lemma MarksCommuted(x: Tree)
    requires x.Leaf? && !IsVHard(x)
    ensures Inner(Add, Marks(x)) == [Num(1, VHard), Num(2, VHard), Num(3, VHard), x]
    ensures Commuted(Marks(x)) == Num(5, VHard)
  {
    hide FoldFrom, FoldNodes, SortedFrom, Operands, Nodes, Inner;
    var ts := [Num(1, VHard), Num(2, VHard), Num(3, VHard), x];
    MarksParts(x);
    MarksInner(x);
    SortedNothing(ts, 0);
    NodesAreChains(Add, Marks(x));
    var ns := Nodes(Add, Marks(x));
    MarksFolded(x, ns);
    assert Commuted(Marks(x)) == Rebuilt(FoldFrom(Add, ts, 2), FoldNodes(Add, ts, ns, 2));
  }

  // ----- the lists the source works on -----

  /** addtree: operands and operator nodes of a chain, appended to the two lists. */
  method AddTree(op: CommOp, tp: Tree, clist: array<Tree>, nc: nat, plist: array<Tree>,
        np: nat) returns (nc': nat, np': nat)
    requires IsChain(op, tp) && clist != plist
    requires nc + |Operands(op, tp)| <= clist.Length && np + |Nodes(op, tp)| <= plist.Length
    modifies clist, plist
    ensures nc' <= clist.Length && clist[..nc'] == old(clist[..nc]) + Operands(op, tp)
    ensures np' <= plist.Length && plist[..np'] == old(plist[..np]) + Nodes(op, tp)
    decreases tp, 0
  {
    hide Operands, Nodes;
    ghost var c0, p0 := clist[..nc], plist[..np];
    ChainParts(op, tp);
    nc', np' := AddSide(op, tp.l, clist, nc, plist, np);
    nc', np' := AddSide(op, tp.r, clist, nc', plist, np');
    assert clist[..nc'] == c0 + (Operands(op, tp.l) + Operands(op, tp.r));
    plist[np'] := tp;
    np' := np' + 1;
    assert plist[..np'] == p0 + (Nodes(op, tp.l) + Nodes(op, tp.r) + [tp]);
  }

  lemma ChainParts(op: CommOp, t: Tree)
    ensures IsChain(op, t) ==> Operands(op, t) == Operands(op, t.l) + Operands(op, t.r)
    ensures IsChain(op, t) ==> Nodes(op, t) == Nodes(op, t.l) + Nodes(op, t.r) + [t]
    ensures !IsChain(op, t) ==> Operands(op, t) == [t] && Nodes(op, t) == []
  {
  }

  method AddSide(op: CommOp, side: Tree, clist: array<Tree>, nc: nat, plist: array<Tree>,
        np: nat) returns (nc': nat, np': nat)
    requires clist != plist
    requires nc + |Operands(op, side)| <= clist.Length && np + |Nodes(op, side)| <= plist.Length
    modifies clist, plist
    ensures nc' <= clist.Length && clist[..nc'] == old(clist[..nc]) + Operands(op, side)
    ensures np' <= plist.Length && plist[..np'] == old(plist[..np]) + Nodes(op, side)
    decreases side, 1
  {
    hide Operands, Nodes;
    ChainParts(op, side);
    if IsChain(op, side) {
      nc', np' := AddTree(op, side, clist, nc, plist, np);
    } else {
      clist[nc] := side;
      nc', np' := nc + 1, np;
    }
  }

  /** Chains are no longer than the operand list. */
  predicate FitsLists(op: CommOp, t: Tree) { |Operands(op, t)| <= 20 }

  /** commute, for trees whose chains fit the operand list. */
  method Commute(t: Tree) returns (r: Tree)
    requires EveryChain(FitsLists, t)
    ensures r == Commuted(t)
    ensures Aligned(t) ==> Kept(t, r)
    decreases Size(t), 2
  {
    if t.Num? || t.Leaf? {
      r := t;
    } else if t.Unary? {
      var r1 := Commute(t.t);
      r := t.(t := r1);
    } else if t.op.Comm? {
      EveryOf(FitsLists, t.op.c, t);
      r := CommuteChain(t.op.c, t);
    } else {
      var s := t;
      if t.op.Relation? && Harder(t.r, t.l) {
        s := t.(op := Relation(SwapRel(t.op.r)), l := t.r, r := t.l);
      }
      var l1 := Commute(s.l);
      var r1 := Commute(s.r);
      r := s.(l := l1, r := r1);
    }
    if Aligned(t) {
      CommutedKept(t);
    }
  }

  method CommuteOperands(op: CommOp, t: Tree, clist: array<Tree>, n: nat)
    requires IsChain(op, t) && n <= clist.Length && clist[..n] == Operands(op, t)
    requires forall i :: 0 <= i < |Operands(op, t)| ==> EveryChain(FitsLists, Operands(op, t)[i])
    modifies clist
    ensures clist[..n] == Inner(op, t)
    decreases Size(t), 0
  {
    hide Operands, Commuted, Inner;
    ghost var os, cs := Operands(op, t), Inner(op, t);
    var p := 0;
    while p < n
      invariant p <= n
      invariant forall i :: 0 <= i < p ==> clist[i] == cs[i]
      invariant forall i :: p <= i < n ==> clist[i] == os[i]
    {
      InnerAt(op, t, p);
      clist[p] := Commute(clist[p]);
      p := p + 1;
    }
  }

  lemma CommutedChain(op: CommOp, t: Tree)
    requires IsChain(op, t)
    ensures AllChains(op, Nodes(op, t)) && |Nodes(op, t)| > 0 && Nodes(op, t)[..|Nodes(op, t)| - 1 + 1] == Nodes(op, t)
    ensures var ss, p := Sorted(Inner(op, t)), |Nodes(op, t)| - 1;
            |ss| == |Nodes(op, t)| + 1
            && Commuted(t) == Rebuilt(FoldFrom(op, ss, p), FoldNodes(op, ss, Nodes(op, t), p))
  {
    hide FoldFrom, FoldNodes, Rebuilt, Sorted, Inner;
    NodesAreChains(op, t);
    SortedCorrect(Inner(op, t));
    assert Nodes(op, t)[..|Nodes(op, t)| - 1 + 1] == Nodes(op, t);
  }

  method CommuteChain(op: CommOp, t: Tree) returns (r: Tree)
    requires IsChain(op, t) && |Operands(op, t)| <= 20
    requires forall i :: 0 <= i < |Operands(op, t)| ==> EveryChain(FitsLists, Operands(op, t)[i])
    ensures r == Commuted(t)
    decreases Size(t), 1
  {
    hide Operands, Nodes, FoldFrom, FoldNodes, Rebuilt, Sorted, Inner, Commuted, Ordered, EveryChain, AllChains;
    ChainParts(op, t);
    NodesAreChains(op, t);
    CommutedChain(op, t);
    var clist := new Tree[20](_ => t);
    var plist := new Tree[19](_ => t);
    var nc, np := AddTree(op, t, clist, 0, plist, 0);
    assert clist[..nc] == Operands(op, t) && plist[..np] == Nodes(op, t);
    CommuteOperands(op, t, clist, nc);
    SortOperands(clist, nc);
    SortedCorrect(Inner(op, t));
    np := FoldConstants(op, clist, plist, np);
    r := Rebuild(clist, plist, np);
  }

  /** The operands of a chain afterwards: marked ones first, then registers, then the
      others by falling numbers, and constants that are not marked at the end. */
  lemma HardestFirst(op: CommOp, t: Tree, i: nat, j: nat)
    requires IsChain(op, t) && Aligned(t) && i < j < |Operands(op, Commuted(t))|
    ensures var a, b := Operands(op, Commuted(t))[i], Operands(op, Commuted(t))[j];
            && (b.su.VHard? ==> a.su.VHard?)
            && (b.Leaf? && b.reg && !b.su.VHard? ==> a.su.VHard? || (a.Leaf? && a.reg))
            && (a.Num? && !a.su.VHard? ==> b.Num? && !b.su.VHard?)
            && (!a.su.VHard? && !b.su.VHard? && !a.Num? && !b.Num? && !(a.Leaf? && a.reg) && !(b.Leaf? && b.reg) ==>
                  a.su.n >= b.su.n)
  {
    CommutedKept(t);
    var r := Commuted(t);
    hide Commuted, Aligned, SameValue, Operands, Ordered;
    assert InOrder(op, r);
    OrderedAt(Operands(op, r), i, j);
  }

  lemma OrderedAt(ts: seq<Tree>, i: nat, j: nat)
    requires Ordered(ts) && i < j < |ts|
    ensures MayPrecede(ts[i], ts[j])
  {
  }

  /** A comparison is turned round when its left side is not marked and its right side
      has to stand before it, or both are constants; the operator is turned with it. */
  lemma RelationTurned(t: Tree)
    requires t.Binary? && t.op.Relation?
    ensures var l, r := t.l, t.r;
            var plain := !l.su.VHard? && !r.su.VHard? && !l.Num? && !r.Num?
                         && !(l.Leaf? && l.reg) && !(r.Leaf? && r.reg);
            var turn := !l.su.VHard? && (!MayPrecede(l, r) || (l.Num? && r.Num?));
            && (plain ==> (turn <==> r.su.n > l.su.n))
            && (turn ==> Commuted(t) == Binary(Relation(SwapRel(t.op.r)), Commuted(r), Commuted(l), t.su))
            && (!turn ==> Commuted(t) == Binary(t.op, Commuted(l), Commuted(r), t.su))
  {
  }
}
