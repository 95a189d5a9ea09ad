/** Expression trees of one 16-bit width, and the values of chains of one operator. */
module Canon {
  import opened Options
  import opened Machine
  import opened Bits
  import opened Sequences
  import opened Words

  /** Sethi-Ullman numbers, and the mark of the operands that are never moved. */
  datatype Su = VHard | Level(n: nat)

  datatype CommOp = Add | Mult | AndOp | OrOp | XorOp

  datatype BinOp = Comm(c: CommOp) | Relation(r: RelOp) | Other(k: nat)

  datatype Tree =
    | Num(v: Int16, su: Su)                        // a constant
    | Leaf(k: nat, reg: bool, su: Su)              // anything else without operands
    | Unary(k: nat, t: Tree, su: Su)
    | Binary(op: BinOp, l: Tree, r: Tree, su: Su)

  /** Values of the leaves and meanings of the operators not looked into. */
  datatype Env = Env(leaf: nat -> int, unary: (nat, int) -> int, other: (nat, int, int) -> int)

  /** A commutative operator on 16-bit words. */
  function Apply(op: CommOp, a: int, b: int): int {
    match op
    case Add => Short(a + b)
    case Mult => Short(a * b)
    case AndOp => Bitwise(BAnd, a, b)
    case OrOp => Bitwise(BOr, a, b)
    case XorOp => Bitwise(BXor, a, b)
  }

  function Value(env: Env, t: Tree): int {
    match t
    case Num(v, _) => v
    case Leaf(k, _, _) => Short(env.leaf(k))
    case Unary(k, t1, _) => Short(env.unary(k, Value(env, t1)))
    case Binary(Comm(c), l, r, _) => Apply(c, Value(env, l), Value(env, r))
    case Binary(Relation(op), l, r, _) => if Holds(op, false, Value(env, l), Value(env, r)) then 1 else 0
    case Binary(Other(k), l, r, _) => Short(env.other(k, Value(env, l), Value(env, r)))
  }

  /** What the operators do: sums and products cut to words, and bits one by one. */
  lemma ApplyMeaning(a: int, b: int, k: nat)
    ensures Apply(Add, a, b) == Short(a + b) && Apply(Mult, a, b) == Short(a * b)
    ensures BitOf(Apply(AndOp, a, b), k) == 1 <==> BitOf(a, k) == 1 && BitOf(b, k) == 1
    ensures BitOf(Apply(OrOp, a, b), k) == 1 <==> BitOf(a, k) == 1 || BitOf(b, k) == 1
    ensures BitOf(Apply(XorOp, a, b), k) == 1 <==> BitOf(a, k) != BitOf(b, k)
  {
    hide Bitwise, BitOf;
    BitwiseMeaning(a, b, k);
  }

  predicate IsShort(v: int) { -32768 <= v < 32768 }

  lemma ShortOf(v: int)
    ensures IsShort(v) ==> Short(v) == v
  {
  }

  lemma ApplyShort(op: CommOp, a: int, b: int)
    requires IsShort(a) && IsShort(b)
    ensures IsShort(Apply(op, a, b))
  {
    hide Bitwise;
    assert Pow2(15) == 32768;
    BitwiseRange(BAnd, a, b, 15);
    BitwiseRange(BOr, a, b, 15);
    BitwiseRange(BXor, a, b, 15);
  }

  lemma {:induction false} ValueShort(env: Env, t: Tree)
    ensures IsShort(Value(env, t))
  {
    hide Apply, Holds;
    match t
    case Binary(Comm(c), l, r, _) =>
      ValueShort(env, l);
      ValueShort(env, r);
      ApplyShort(c, Value(env, l), Value(env, r));
    case _ =>
  }

  lemma ApplyCommutes(op: CommOp, a: int, b: int)
    ensures Apply(op, a, b) == Apply(op, b, a)
  {
    hide Bitwise;
    assert a * b == b * a;
    BitwiseCommutes(BAnd, a, b);
    BitwiseCommutes(BOr, a, b);
    BitwiseCommutes(BXor, a, b);
  }

  /** Words that differ by a multiple of 65536 are the same word. */
  lemma SameShort(a: int, b: int, k: int)
    requires a == b + 65536 * k
    ensures Short(a) == Short(b)
  {
  }

  lemma ShortPart(a: int) returns (k: int)
    ensures Short(a) == a + 65536 * k
  {
    k := -((a + 32768) / 65536);
  }

  lemma MulPart(a: int, b: int, k: int)
    ensures (a + 65536 * k) * b == a * b + 65536 * (k * b)
  {
  }

  lemma ApplyAssociates(op: CommOp, a: int, b: int, c: int)
    ensures Apply(op, Apply(op, a, b), c) == Apply(op, a, Apply(op, b, c))
  {
    hide Bitwise, Short;
    match op
    case Add =>
      var j := ShortPart(a + b);
      var k := ShortPart(b + c);
      SameShort(Short(a + b) + c, a + b + c, j);
      SameShort(a + Short(b + c), a + b + c, k);
    case Mult =>
      var j := ShortPart(a * b);
      var k := ShortPart(b * c);
      MulPart(a * b, c, j);
      MulPart(b * c, a, k);
      assert a * b * c == b * c * a;
      SameShort(Short(a * b) * c, a * b * c, j * c);
      SameShort(a * Short(b * c), a * b * c, k * a);
    case AndOp => BitwiseAssociates(BAnd, a, b, c);
    case OrOp => BitwiseAssociates(BOr, a, b, c);
    case XorOp => BitwiseAssociates(BXor, a, b, c);
  }

  // ----- chains -----

  predicate IsChain(op: CommOp, t: Tree) { t.Binary? && t.op == Comm(op) }

  /** The operands of a chain, left to right. */
  function Operands(op: CommOp, t: Tree): (os: seq<Tree>)
    ensures |os| > 0
  {
    if IsChain(op, t) then Operands(op, t.l) + Operands(op, t.r) else [t]
  }

  /** The operator nodes of a chain, children before parents. */
  function Nodes(op: CommOp, t: Tree): (ns: seq<Tree>)
    ensures |ns| + 1 == |Operands(op, t)|
    ensures forall n :: n in ns ==> IsChain(op, n)
  {
    if IsChain(op, t) then Nodes(op, t.l) + Nodes(op, t.r) + [t] else []
  }

  function Size(t: Tree): nat {
    match t
    case Unary(_, t1, _) => Size(t1) + 1
    case Binary(_, l, r, _) => Size(l) + Size(r) + 1
    case _ => 1
  }

  lemma {:induction false} OperandsSmaller(op: CommOp, t: Tree)
    ensures forall o :: o in Operands(op, t) ==> Size(o) <= Size(t) && !IsChain(op, o)
    ensures IsChain(op, t) ==> forall o :: o in Operands(op, t) ==> Size(o) < Size(t)
  {
    if IsChain(op, t) {
      OperandsSmaller(op, t.l);
      OperandsSmaller(op, t.r);
    }
  }

  /** The operator over a list of values, from the left. */
  function Total(op: CommOp, vs: seq<int>): int
    requires vs != []
  {
    if |vs| == 1 then vs[0] else Apply(op, Total(op, vs[..|vs| - 1]), vs[|vs| - 1])
  }

  function Values(env: Env, ts: seq<Tree>): (vs: seq<int>)
    ensures |vs| == |ts|
  {
    seq(|ts|, i requires 0 <= i < |ts| => Value(env, ts[i]))
  }

  lemma {:induction false} TotalConcat(op: CommOp, a: seq<int>, b: seq<int>)
    requires a != [] && b != []
    ensures Total(op, a + b) == Apply(op, Total(op, a), Total(op, b))
  {
    hide Apply;
    var ab := a + b;
    assert ab[|ab| - 1] == b[|b| - 1];
    if |b| == 1 {
      assert ab[..|ab| - 1] == a;
    } else {
      var b' := b[..|b| - 1];
      assert ab[..|ab| - 1] == a + b';
      TotalConcat(op, a, b');
      ApplyAssociates(op, Total(op, a), Total(op, b'), b[|b| - 1]);
    }
  }

  /** Flattening: a chain has the total of its operands. */
  lemma {:induction false} ChainValue(env: Env, op: CommOp, t: Tree)
    ensures Value(env, t) == Total(op, Values(env, Operands(op, t)))
  {
    hide Apply;
    if IsChain(op, t) {
      var a, b := Operands(op, t.l), Operands(op, t.r);
      ChainValue(env, op, t.l);
      ChainValue(env, op, t.r);
      assert Values(env, a + b) == Values(env, a) + Values(env, b);
      TotalConcat(op, Values(env, a), Values(env, b));
    } else {
      assert Values(env, [t]) == [Value(env, t)];
    }
  }

  lemma TotalLast(op: CommOp, vs: seq<int>)
    requires |vs| > 1
    ensures Total(op, vs) == Apply(op, Total(op, vs[..|vs| - 1]), vs[|vs| - 1])
  {
  }

  lemma TotalFirst(op: CommOp, x: int, b: seq<int>)
    requires b != []
    ensures Total(op, [x] + b) == Apply(op, Total(op, b), x)
  {
    hide Apply;
    TotalConcat(op, [x], b);
    ApplyCommutes(op, x, Total(op, b));
  }

  /** Any one value may be taken last. */
  lemma TotalPick(op: CommOp, vs: seq<int>, i: nat)
    requires i < |vs| && |vs| > 1
    ensures Total(op, vs) == Apply(op, Total(op, vs[..i] + vs[i + 1..]), vs[i])
  {
    hide Apply, Total;
    var n := |vs| - 1;
    if i == n {
      TotalLast(op, vs);
      assert vs[..i] + vs[i + 1..] == vs[..n];
    } else {
      var a, b := vs[..i], vs[i + 1..];
      assert vs == a + ([vs[i]] + b);
      TotalFirst(op, vs[i], b);
      if a == [] {
        assert a + b == b;
      } else {
        TotalAfter(op, a, vs[i], b);
      }
    }
  }

  lemma TotalAfter(op: CommOp, a: seq<int>, x: int, b: seq<int>)
    requires a != [] && b != [] && Total(op, [x] + b) == Apply(op, Total(op, b), x)
    ensures Total(op, a + ([x] + b)) == Apply(op, Total(op, a + b), x)
  {
    hide Apply, Total;
    TotalConcat(op, a, [x] + b);
    TotalConcat(op, a, b);
    ApplyAssociates(op, Total(op, a), Total(op, b), x);
  }

  /** Order does not matter. */
  lemma {:induction false} TotalPermutation(op: CommOp, a: seq<int>, b: seq<int>)
    requires a != [] && multiset(a) == multiset(b)
    ensures |a| == |b| && Total(op, a) == Total(op, b)
    decreases |a|
  {
    hide Apply;
    var i := FindLast(a, b);
    if |a| > 1 {
      TotalPermutation(op, a[..|a| - 1], Without(b, i));
      TotalPick(op, b, i);
    }
  }

  lemma ValuesConcat(env: Env, a: seq<Tree>, b: seq<Tree>)
    ensures Values(env, a + b) == Values(env, a) + Values(env, b)
  {
    hide Value;
  }

  lemma {:induction false} ValuesPermutation(env: Env, a: seq<Tree>, b: seq<Tree>)
    requires multiset(a) == multiset(b)
    ensures multiset(Values(env, a)) == multiset(Values(env, b))
    decreases |a|
  {
    hide Values, Value;
    if a == [] {
      assert b == [] by { assert |multiset(b)| == 0; }
    } else {
      var i := FindLast(a, b);
      var n := |a| - 1;
      ValuesPermutation(env, a[..n], Without(b, i));
      assert a == a[..n] + [a[n]];
      ValuesConcat(env, a[..n], [a[n]]);
      assert b == b[..i] + ([b[i]] + b[i + 1..]);
      ValuesConcat(env, b[..i], [b[i]] + b[i + 1..]);
      ValuesConcat(env, [b[i]], b[i + 1..]);
      ValuesConcat(env, b[..i], b[i + 1..]);
    }
  }

  // ----- constants -----

  /** ccexpr on a commutative operator: constants are folded in long arithmetic
      and the result cut back to a word. */
  function Ccexpr(op: CommOp, l: Tree, r: Tree): Option<Tree> {
    if l.Num? && r.Num? then Some(Num(Short(LongApply(op, l.v, r.v)), l.su)) else None
  }

  function LongApply(op: CommOp, a: Int16, b: Int16): int {
    match op
    case Add => a + b
    case Mult => a * b
    case AndOp => Bitwise(BAnd, a, b)
    case OrOp => Bitwise(BOr, a, b)
    case XorOp => Bitwise(BXor, a, b)
  }

  /** Folding keeps the value. */
  lemma CcexprValue(op: CommOp, l: Tree, r: Tree, env: Env)
    requires Ccexpr(op, l, r).Some?
    ensures Value(env, Ccexpr(op, l, r).value) == Apply(op, Value(env, l), Value(env, r))
  {
    hide Bitwise;
    ApplyShort(op, l.v, r.v);
    ShortOf(LongApply(op, l.v, r.v));
  }

  /** The operands once the constants at the end have been folded together, as
      long as an operator is left over for the first two. */
  function Folded(op: CommOp, ts: seq<Tree>): (fs: seq<Tree>)
    requires |ts| >= 2
    ensures 2 <= |fs| <= |ts|
    decreases |ts|
  {
    if |ts| == 2 then ts
    else
      var c := Ccexpr(op, ts[|ts| - 2], ts[|ts| - 1]);
      if c.None? then ts else Folded(op, ts[..|ts| - 2] + [c.value])
  }

  lemma {:induction false} FoldedValue(op: CommOp, ts: seq<Tree>, env: Env)
    requires |ts| >= 2
    ensures Total(op, Values(env, Folded(op, ts))) == Total(op, Values(env, ts))
    decreases |ts|
  {
    hide Apply, Value, Ccexpr, Values;
    if |ts| > 2 {
      var n := |ts| - 2;
      var c := Ccexpr(op, ts[n], ts[n + 1]);
      if c.Some? {
        var a := ts[..n];
        CcexprValue(op, ts[n], ts[n + 1], env);
        FoldedValue(op, a + [c.value], env);
        assert ts == a + ([ts[n]] + [ts[n + 1]]);
        ValuesConcat(env, a, [ts[n]] + [ts[n + 1]]);
        ValuesConcat(env, [ts[n]], [ts[n + 1]]);
        ValuesConcat(env, a, [c.value]);
        ValuesOne(env, ts[n]);
        ValuesOne(env, ts[n + 1]);
        ValuesOne(env, c.value);
        TotalLastTwo(op, Values(env, a), Value(env, ts[n]), Value(env, ts[n + 1]));
      }
    }
  }

  lemma ValuesOne(env: Env, t: Tree)
    ensures Values(env, [t]) == [Value(env, t)]
  {
  }

  lemma TotalLastTwo(op: CommOp, vs: seq<int>, x: int, y: int)
    requires vs != []
    ensures Total(op, vs + ([x] + [y])) == Total(op, vs + [Apply(op, x, y)])
  {
    hide Apply;
    TotalConcat(op, vs, [x] + [y]);
    TotalConcat(op, vs, [Apply(op, x, y)]);
    assert ([x] + [y])[..1] == [x];
  }
}
