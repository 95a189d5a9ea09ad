/** The code both compiler passes emit and the machine that runs it.

    An expression is opaque: it is known only by a number.  What it evaluates
    to may depend on everything evaluated before it, so the state of a run is
    the history of evaluations so far, and a `World` says which values an
    expression has after a given history.  Two runs with the same history have
    evaluated the same expressions in the same order. */
module Machine {
  import opened Options
  import opened Words

  type Label = nat
  type Atom = nat

  datatype Event =
    | Did(a: Atom)                 // evaluated for effect
    | Tested(a: Atom)              // evaluated for condition codes, against zero
    | Compared(a: Atom)            // both sides of a relational evaluated
    | Switched(a: Atom)            // switch selector loaded in the known register
    | Returned(a: Atom)            // return value loaded in the known register
    | Valued(a: Atom)              // value left in the working register
    | Constant(v: int)             // constant left in the working register

  type History = seq<Event>

  datatype World = World(left: (History, Atom) -> int, right: (History, Atom) -> int)

  datatype RelOp = Equals | NEquals | Great | GreatEq | Less | LessEq

  function InvRel(op: RelOp): RelOp {
    match op
    case Equals => NEquals
    case NEquals => Equals
    case Great => LessEq
    case GreatEq => Less
    case Less => GreatEq
    case LessEq => Great
  }

  predicate Holds(op: RelOp, unsigned: bool, x: int, y: int) {
    var a, b := if unsigned then x % 65536 else Short(x), if unsigned then y % 65536 else Short(y);
    match op
    case Equals => a == b
    case NEquals => a != b
    case Great => a > b
    case GreatEq => a >= b
    case Less => a < b
    case LessEq => a <= b
  }

  /** Condition trees, as they reach the second pass. */
  datatype Cond =
    | CInt(v: int)
    | Not(c: Cond)
    | And(l: Cond, r: Cond)
    | Or(l: Cond, r: Cond)
    | Comma(a: Atom, c: Cond)
    | Rel(op: RelOp, unsigned: bool, a: Atom)
    | Test(a: Atom)

  /** Short-circuit truth of a condition tree, with the history it leaves. */
  function Truth(w: World, c: Cond, h: History): (bool, History) {
    match c
    case CInt(v) => (v != 0, h)
    case Not(c1) => var (b, h1) := Truth(w, c1, h); (!b, h1)
    case And(l, r) => var (b, h1) := Truth(w, l, h); if b then Truth(w, r, h1) else (false, h1)
    case Or(l, r) => var (b, h1) := Truth(w, l, h); if b then (true, h1) else Truth(w, r, h1)
    case Comma(a, c1) => Truth(w, c1, h + [Did(a)])
    case Rel(op, uns, a) => (Holds(op, uns, w.left(h, a), w.right(h, a)), h + [Compared(a)])
    case Test(a) => (Short(w.left(h, a)) != 0, h + [Tested(a)])
  }

  datatype Entry = Entry(value: int, lab: Label)

  datatype Instr =
    | Lab(l: Label)
    | Goto(l: Label)
    | IfGoto(c: Cond, dir: bool, l: Label)         // first pass: the tree is still whole
    | Eval(e: Event)
    | Branch(op: RelOp, unsigned: bool, l: Label)  // second pass: on the condition codes
    | Jump(table: seq<Entry>, dflt: Label)         // the switch operator

  type Code = seq<Instr>

  /** Address of a label: the first definition, or the end of the code. */
  function Find(p: Code, l: Label): (i: nat)
    ensures i <= |p|
    ensures i < |p| ==> p[i] == Lab(l)
    ensures i == |p| ==> Lab(l) !in p
    ensures forall j :: 0 <= j < i ==> p[j] != Lab(l)
  {
    if p == [] then 0 else if p[0] == Lab(l) then 0 else Find(p[1..], l) + 1
  }

  /** No label is defined twice. */
  ghost predicate Unique(p: Code) {
    forall i, j :: 0 <= i < j < |p| && p[i].Lab? && p[j].Lab? ==> p[i].l != p[j].l
  }

  /** The label a switch jumps to: the entry holding the value, else the default. */
  function Select(table: seq<Entry>, dflt: Label, v: int): Label {
    if table == [] then dflt
    else if table[0].value == v then table[0].lab
    else Select(table[1..], dflt, v)
  }

  /** The condition codes hold the outcome of the last evaluation made for them. */
  predicate Flag(w: World, h: History, op: RelOp, uns: bool) {
    |h| > 0 &&
    var before, last := h[..|h| - 1], h[|h| - 1];
    match last
    case Tested(a) => Holds(op, uns, w.left(before, a), 0)
    case Compared(a) => Holds(op, uns, w.left(before, a), w.right(before, a))
    case _ => false
  }

  /** The selector register holds the value of the last switch expression. */
  function Selector(w: World, h: History): int {
    if |h| > 0 && h[|h| - 1].Switched? then Short(w.left(h[..|h| - 1], h[|h| - 1].a)) else 0
  }

  datatype Conf = Conf(pc: nat, h: History)

  function Step(w: World, p: Code, s: Conf): Conf
    requires s.pc < |p|
  {
    match p[s.pc]
    case Lab(_) => Conf(s.pc + 1, s.h)
    case Goto(l) => Conf(Find(p, l), s.h)
    case IfGoto(c, dir, l) =>
      var (b, h1) := Truth(w, c, s.h);
      Conf(if b == dir then Find(p, l) else s.pc + 1, h1)
    case Eval(e) => Conf(s.pc + 1, s.h + [e])
    case Branch(op, uns, l) => Conf(if Flag(w, s.h, op, uns) then Find(p, l) else s.pc + 1, s.h)
    case Jump(table, dflt) => Conf(Find(p, Select(table, dflt, Selector(w, s.h))), s.h)
  }

  /** The configuration after exactly n steps, or None when the code ends sooner. */
  function Run(w: World, p: Code, s: Conf, n: nat): Option<Conf>
    decreases n
  {
    if n == 0 then Some(s)
    else if s.pc >= |p| then None
    else Run(w, p, Step(w, p, s), n - 1)
  }

  /** t is reached from s in at least k steps. */
  ghost predicate Reach(w: World, p: Code, s: Conf, t: Conf, k: nat) {
    exists n: nat :: n >= k && Run(w, p, s, n) == Some(t)
  }

  /** The run from s lasts at least k steps. */
  ghost predicate Lasts(w: World, p: Code, s: Conf, k: nat) {
    Run(w, p, s, k).Some?
  }

  lemma {:induction false} RunAdd(w: World, p: Code, s: Conf, n: nat, k: nat)
    requires Run(w, p, s, n).Some?
    ensures Run(w, p, s, n + k) == Run(w, p, Run(w, p, s, n).value, k)
    decreases n
  {
    if n > 0 {
      RunAdd(w, p, Step(w, p, s), n - 1, k);
    }
  }

  lemma {:induction false} LastsLess(w: World, p: Code, s: Conf, k: nat, j: nat)
    requires Lasts(w, p, s, k) && j <= k
    ensures Lasts(w, p, s, j)
    decreases j
  {
    if j > 0 {
      LastsLess(w, p, Step(w, p, s), k - 1, j - 1);
    }
  }

  lemma ReachSelf(w: World, p: Code, s: Conf)
    ensures Reach(w, p, s, s, 0)
  {
    assert Run(w, p, s, 0) == Some(s);
  }

  lemma ReachStep(w: World, p: Code, s: Conf)
    requires s.pc < |p|
    ensures Reach(w, p, s, Step(w, p, s), 1)
  {
    assert Run(w, p, s, 1) == Run(w, p, Step(w, p, s), 0);
  }

  lemma ReachTrans(w: World, p: Code, s: Conf, t: Conf, u: Conf, j: nat, k: nat)
    requires Reach(w, p, s, t, j) && Reach(w, p, t, u, k)
    ensures Reach(w, p, s, u, j + k)
  {
    var n: nat :| n >= j && Run(w, p, s, n) == Some(t);
    var m: nat :| m >= k && Run(w, p, t, m) == Some(u);
    RunAdd(w, p, s, n, m);
    assert Run(w, p, s, n + m) == Some(u);
  }

  lemma LastsTrans(w: World, p: Code, s: Conf, t: Conf, j: nat, k: nat)
    requires Reach(w, p, s, t, j) && Lasts(w, p, t, k)
    ensures Lasts(w, p, s, j + k)
  {
    var n: nat :| n >= j && Run(w, p, s, n) == Some(t);
    RunAdd(w, p, s, n, k);
    LastsLess(w, p, s, n + k, j + k);
  }

  /** A run that ends, ends in one way only. */
  lemma HaltsOnce(w: World, p: Code, s: Conf, n: nat, m: nat, t: Conf, u: Conf)
    requires Run(w, p, s, n) == Some(t) && Run(w, p, s, m) == Some(u)
    requires t.pc >= |p| && u.pc >= |p|
    ensures n == m && t == u
  {
    if n < m {
      RunAdd(w, p, s, n, m - n);
    } else if m < n {
      RunAdd(w, p, s, m, n - m);
    }
  }

  /** In code without duplicate labels a label is found where it stands. */
  lemma FindUnique(p: Code, i: nat)
    requires Unique(p) && i < |p| && p[i].Lab?
    ensures Find(p, p[i].l) == i
  {
    var j := Find(p, p[i].l);
  }

  /** The piece of code `c` stands at address `at` of the program. */
  ghost predicate At(p: Code, at: nat, c: Code) {
    at + |c| <= |p| && p[at..at + |c|] == c
  }

  lemma AtSplit(p: Code, at: nat, a: Code, b: Code)
    requires At(p, at, a + b)
    ensures At(p, at, a) && At(p, at + |a|, b)
  {
    assert p[at..at + |a + b|][..|a|] == p[at..at + |a|];
    assert p[at..at + |a + b|][|a|..] == p[at + |a|..at + |a| + |b|];
    assert (a + b)[..|a|] == a && (a + b)[|a|..] == b;
  }

  lemma AtHead(p: Code, at: nat, c: Code)
    requires At(p, at, c) && |c| > 0
    ensures at + |c| <= |p| && p[at] == c[0]
  {
    assert p[at..at + |c|][0] == p[at];
  }

  /** Labels a piece of code defines. */
  function Defs(c: Code): set<Label> {
    set i | 0 <= i < |c| && c[i].Lab? :: c[i].l
  }

  lemma DefsConcat(a: Code, b: Code)
    ensures Defs(a + b) == Defs(a) + Defs(b)
  {
    var c := a + b;
    forall l | l in Defs(a) + Defs(b) ensures l in Defs(c) {
      if l in Defs(a) {
        var i :| 0 <= i < |a| && a[i].Lab? && a[i].l == l;
        assert c[i] == a[i];
      } else {
        var i :| 0 <= i < |b| && b[i].Lab? && b[i].l == l;
        assert c[|a| + i] == b[i];
      }
    }
  }

  lemma UniqueConcat(a: Code, b: Code)
    requires Unique(a) && Unique(b) && Defs(a) !! Defs(b)
    ensures Unique(a + b)
    ensures Defs(a + b) == Defs(a) + Defs(b)
  {
    DefsConcat(a, b);
    var c := a + b;
    forall i, j | 0 <= i < j < |c| && c[i].Lab? && c[j].Lab? ensures c[i].l != c[j].l {
      if i < |a| <= j {
        assert c[i].l in Defs(a) && c[j].l in Defs(b);
      }
    }
  }
}
