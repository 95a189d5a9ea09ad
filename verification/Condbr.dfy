/** Conditional branches: the second pass turns a condition tree into jumps. */
module Condbr {
  import opened Machine
  import opened Options

  datatype Piece = Piece(code: Code, next: Label)

  /** Condition codes are set by an evaluation, then tested by one branch. */
  function Leaf(e: Event, op: RelOp, uns: bool, dir: bool, lab: Label): Code {
    [Eval(e), Branch(if dir then op else InvRel(op), uns, lab)]
  }

  /** The jumps emitted for a tree from free label n on: to `lab` when the
      tree's truth is `dir`, through the end otherwise. */
  function Jumps(c: Cond, dir: bool, lab: Label, n: Label): (p: Piece)
    ensures p.next >= n
  {
    match c
    case CInt(v) => Piece(if (v != 0) == dir then [Goto(lab)] else [], n)
    case Not(c1) => Jumps(c1, !dir, lab, n)
    case Comma(a, c1) => var p := Jumps(c1, dir, lab, n); Piece([Eval(Did(a))] + p.code, p.next)
    case Rel(op, uns, a) => Piece(Leaf(Compared(a), op, uns, dir, lab), n)
    case Test(a) => Piece(Leaf(Tested(a), NEquals, false, dir, lab), n)
    case _ =>
      if c.And? == dir then    // the left side decides by jumping past the right side
        var pl := Jumps(c.l, !dir, n, n + 1);
        var pr := Jumps(c.r, dir, lab, pl.next);
        Piece(pl.code + pr.code + [Lab(n)], pr.next)
      else                     // either side decides by jumping to the target
        var pl := Jumps(c.l, dir, lab, n);
        var pr := Jumps(c.r, dir, lab, pl.next);
        Piece(pl.code + pr.code, pr.next)
  }

  lemma JumpsTwo(c: Cond, dir: bool, lab: Label, n: Label)
    requires c.And? || c.Or?
    ensures var far := c.And? == dir;
            var pl := Jumps(c.l, if far then !dir else dir, if far then n else lab, if far then n + 1 else n);
            var pr := Jumps(c.r, dir, lab, pl.next);
            Jumps(c, dir, lab, n) == Piece(pl.code + pr.code + if far then [Lab(n)] else [], pr.next)
  {
  }

  function Size(c: Cond): nat {
    match c
    case Not(c1) => Size(c1) + 1
    case Comma(_, c1) => Size(c1) + 1
    case And(l, r) => Size(l) + Size(r) + 1
    case Or(l, r) => Size(l) + Size(r) + 1
    case _ => 1
  }

  predicate Fresh(c: Code, lo: Label, hi: Label) {
    forall l :: l in Defs(c) ==> lo <= l < hi
  }

  lemma {:induction false} JumpsLabels(c: Cond, dir: bool, lab: Label, n: Label)
    ensures var p := Jumps(c, dir, lab, n); Unique(p.code) && Fresh(p.code, n, p.next)
  {
    match c
    case CInt(v) =>
    case Not(c1) => JumpsLabels(c1, !dir, lab, n);
    case Comma(a, c1) =>
      JumpsLabels(c1, dir, lab, n);
      UniqueConcat([Eval(Did(a))], Jumps(c1, dir, lab, n).code);
    case Rel(_, _, _) =>
    case Test(_) =>
    case _ =>
      if c.And? == dir {
        var pl := Jumps(c.l, !dir, n, n + 1);
        var pr := Jumps(c.r, dir, lab, pl.next);
        JumpsLabels(c.l, !dir, n, n + 1);
        JumpsLabels(c.r, dir, lab, pl.next);
        UniqueConcat(pl.code, pr.code);
        assert Defs([Lab(n)]) == {n} by { assert [Lab(n)][0] == Lab(n); }
        UniqueConcat(pl.code + pr.code, [Lab(n)]);
      } else {
        var pl := Jumps(c.l, dir, lab, n);
        var pr := Jumps(c.r, dir, lab, pl.next);
        JumpsLabels(c.l, dir, lab, n);
        JumpsLabels(c.r, dir, lab, pl.next);
        UniqueConcat(pl.code, pr.code);
      }
  }

  /** Where control goes after the jumps for c have run from history h. */
  function Landing(w: World, p: Code, c: Cond, dir: bool, lab: Label, end: nat, h: History): Conf {
    var (b, h1) := Truth(w, c, h);
    Conf(if b == dir then Find(p, lab) else end, h1)
  }

  lemma LeafCorrect(w: World, p: Code, at: nat, c: Cond, dir: bool, lab: Label, n: Label, h: History)
    requires c.Rel? || c.Test?
    requires At(p, at, Jumps(c, dir, lab, n).code)
    ensures Reach(w, p, Conf(at, h), Landing(w, p, c, dir, lab, at + 2, h), 0)
  {
    var e := if c.Rel? then Compared(c.a) else Tested(c.a);
    var code := Jumps(c, dir, lab, n).code;
    assert p[at] == code[0] && p[at + 1] == code[1] by {
      assert p[at..at + |code|][0] == p[at] && p[at..at + |code|][1] == p[at + 1];
    }
    var s := Conf(at, h);
    var s1 := Conf(at + 1, h + [e]);
    ReachStep(w, p, s);
    ReachStep(w, p, s1);
    assert s1.h[..|s1.h| - 1] == h;
    ReachTrans(w, p, s, s1, Step(w, p, s1), 1, 1);
  }

  /** The jumps land on `lab` exactly when the truth of the tree is `dir`,
      after exactly the evaluations short-circuit evaluation makes. */
  lemma {:induction false} JumpsCorrect(w: World, p: Code, at: nat, c: Cond, dir: bool, lab: Label, n: Label,
        h: History)
    requires Unique(p)
    requires At(p, at, Jumps(c, dir, lab, n).code)
    ensures Reach(w, p, Conf(at, h), Landing(w, p, c, dir, lab, at + |Jumps(c, dir, lab, n).code|, h), 0)
    decreases Size(c), 1
  {
    var code := Jumps(c, dir, lab, n).code;
    match c
    case CInt(v) =>
      ReachSelf(w, p, Conf(at, h));
      if (v != 0) == dir {
        AtHead(p, at, code);
        ReachStep(w, p, Conf(at, h));
      }
    case Not(c1) => JumpsCorrect(w, p, at, c1, !dir, lab, n, h);
    case Comma(a, c1) =>
      AtSplit(p, at, [Eval(Did(a))], Jumps(c1, dir, lab, n).code);
      AtHead(p, at, code);
      ReachStep(w, p, Conf(at, h));
      JumpsCorrect(w, p, at + 1, c1, dir, lab, n, h + [Did(a)]);
      ReachTrans(w, p, Conf(at, h), Conf(at + 1, h + [Did(a)]), Landing(w, p, c, dir, lab, at + |code|, h), 1, 0);
    case Rel(_, _, _) => LeafCorrect(w, p, at, c, dir, lab, n, h);
    case Test(_) => LeafCorrect(w, p, at, c, dir, lab, n, h);
    case _ => BinaryCorrect(w, p, at, c, dir, lab, n, h);
  }

  lemma {:induction false} BinaryCorrect(w: World, p: Code, at: nat, c: Cond, dir: bool, lab: Label, n: Label,
        h: History)
    requires Unique(p)
    requires c.And? || c.Or?
    requires At(p, at, Jumps(c, dir, lab, n).code)
    ensures Reach(w, p, Conf(at, h), Landing(w, p, c, dir, lab, at + |Jumps(c, dir, lab, n).code|, h), 0)
    decreases Size(c), 0
  {
    if c.And? == dir {
      SkippingCorrect(w, p, at, c.l, c.r, dir, lab, n, h);
    } else {
      ChainedCorrect(w, p, at, c.l, c.r, dir, lab, n, h);
    }
  }

  /** Left side tested to skip the right one; both are laid out before label n. */
  lemma {:induction false} SkippingCorrect(w: World, p: Code, at: nat, l: Cond, r: Cond, dir: bool, lab: Label,
        n: Label, h: History)
    requires Unique(p)
    requires var pl := Jumps(l, !dir, n, n + 1);
             At(p, at, pl.code + Jumps(r, dir, lab, pl.next).code + [Lab(n)])
    ensures var pl := Jumps(l, !dir, n, n + 1);
            var end := at + |pl.code| + |Jumps(r, dir, lab, pl.next).code| + 1;
            var (bl, hl) := Truth(w, l, h);
            Reach(w, p, Conf(at, h), if bl == dir then Landing(w, p, r, dir, lab, end, hl) else Conf(end, hl), 0)
    decreases Size(l) + Size(r), 2
  {
    hide Jumps, Truth, Find, Run;
    var pl := Jumps(l, !dir, n, n + 1);
    var pr := Jumps(r, dir, lab, pl.next);
    var mid, over := at + |pl.code|, at + |pl.code| + |pr.code|;
    AtSplit(p, at, pl.code + pr.code, [Lab(n)]);
    AtSplit(p, at, pl.code, pr.code);
    AtHead(p, over, [Lab(n)]);
    FindUnique(p, over);
    JumpsCorrect(w, p, at, l, !dir, n, n + 1, h);
    var (bl, hl) := Truth(w, l, h);
    if bl == dir {
      JumpsCorrect(w, p, mid, r, dir, lab, pl.next, hl);
      OverLabel(w, p, mid, hl, r, dir, lab, over);
      ReachTrans(w, p, Conf(at, h), Conf(mid, hl), Landing(w, p, r, dir, lab, over + 1, hl), 0, 0);
    } else {
      ReachStep(w, p, Conf(over, hl));
      ReachTrans(w, p, Conf(at, h), Conf(over, hl), Conf(over + 1, hl), 0, 1);
    }
  }

  /** Falling through onto a label falls past it. */
  lemma OverLabel(w: World, p: Code, at: nat, h: History, c: Cond, dir: bool, lab: Label, end: nat)
    requires end < |p| && p[end].Lab?
    requires Reach(w, p, Conf(at, h), Landing(w, p, c, dir, lab, end, h), 0)
    ensures Reach(w, p, Conf(at, h), Landing(w, p, c, dir, lab, end + 1, h), 0)
  {
    var (b, h1) := Truth(w, c, h);
    if b != dir {
      ReachStep(w, p, Conf(end, h1));
      ReachTrans(w, p, Conf(at, h), Conf(end, h1), Conf(end + 1, h1), 0, 1);
    }
  }

  /** Either side jumps to the target. */
  lemma {:induction false} ChainedCorrect(w: World, p: Code, at: nat, l: Cond, r: Cond, dir: bool, lab: Label,
        n: Label, h: History)
    requires Unique(p)
    requires var pl := Jumps(l, dir, lab, n); At(p, at, pl.code + Jumps(r, dir, lab, pl.next).code)
    ensures var pl := Jumps(l, dir, lab, n);
            var end := at + |pl.code| + |Jumps(r, dir, lab, pl.next).code|;
            var (bl, hl) := Truth(w, l, h);
            Reach(w, p, Conf(at, h), if bl == dir then Conf(Find(p, lab), hl) else Landing(w, p, r, dir, lab, end, hl), 0)
    decreases Size(l) + Size(r), 2
  {
    hide Jumps, Truth, Find, Run;
    var pl := Jumps(l, dir, lab, n);
    var pr := Jumps(r, dir, lab, pl.next);
    var mid := at + |pl.code|;
    AtSplit(p, at, pl.code, pr.code);
    JumpsCorrect(w, p, at, l, dir, lab, n, h);
    var (bl, hl) := Truth(w, l, h);
    if bl != dir {
      JumpsCorrect(w, p, mid, r, dir, lab, pl.next, hl);
      ReachTrans(w, p, Conf(at, h), Conf(mid, hl), Landing(w, p, r, dir, lab, mid + |pr.code|, hl), 0, 0);
    }
  }

  /** Expressions whose value is wanted in the register and that need jumps:
      relationals and logicals (hardrel) and the question mark (cqmark). */
  datatype Value =
    | Plain(a: Atom)
    | Logical(c: Cond)
    | Question(c: Cond, yes: Value, no: Value)

  /** What evaluating the value adds to the history: its last event says what
      the register holds. */
  function Evaluate(w: World, v: Value, h: History): History {
    match v
    case Plain(a) => h + [Valued(a)]
    case Logical(c) => var (b, h1) := Truth(w, c, h); h1 + [Constant(if b then 1 else 0)]
    case Question(c, yes, no) => var (b, h1) := Truth(w, c, h); Evaluate(w, if b then yes else no, h1)
  }

  function ValueCode(v: Value, n: Label): (p: Piece)
    ensures p.next >= n
  {
    match v
    case Plain(a) => Piece([Eval(Valued(a))], n)
    case Logical(c) =>
      var pc := Jumps(c, true, n, n + 1);
      Piece(Diamond(pc.code, [Eval(Constant(0))], [Eval(Constant(1))], n, pc.next), pc.next + 1)
    case Question(c, yes, no) =>
      var pc := Jumps(c, false, n, n + 1);
      var py := ValueCode(yes, pc.next);
      var pn := ValueCode(no, py.next + 1);
      Piece(Diamond(pc.code, py.code, pn.code, n, py.next), pn.next)
  }

  lemma QuestionCode(c: Cond, yes: Value, no: Value, n: Label)
    ensures var pc := Jumps(c, false, n, n + 1);
            var py := ValueCode(yes, pc.next);
            var pn := ValueCode(no, py.next + 1);
            ValueCode(Question(c, yes, no), n) == Piece(Diamond(pc.code, py.code, pn.code, n, py.next), pn.next)
  {
    hide Jumps, Diamond;
  }

  /** test; through; goto l2; l1: taken; l2: */
  function Diamond(test: Code, through: Code, taken: Code, l1: Label, l2: Label): Code {
    test + (through + [Goto(l2), Lab(l1)] + taken + [Lab(l2)])
  }

  lemma {:induction false} ValueLabels(v: Value, n: Label)
    ensures var p := ValueCode(v, n); Unique(p.code) && Fresh(p.code, n, p.next)
  {
    hide Jumps, Defs, Unique, Diamond;
    match v
    case Plain(a) => PlainLabels(a);
    case Logical(c) => LogicalLabels(c, n);
    case Question(c, yes, no) =>
      var pc := Jumps(c, false, n, n + 1);
      var py := ValueCode(yes, pc.next);
      JumpsLabels(c, false, n, n + 1);
      ValueLabels(yes, pc.next);
      ValueLabels(no, py.next + 1);
      DiamondLabels(pc.code, py.code, ValueCode(no, py.next + 1).code, n, py.next);
  }

  lemma LogicalLabels(c: Cond, n: Label)
    ensures var p := ValueCode(Logical(c), n); Unique(p.code) && Fresh(p.code, n, p.next)
  {
    hide Jumps;
    var pc := Jumps(c, true, n, n + 1);
    JumpsLabels(c, true, n, n + 1);
    DiamondLabels(pc.code, [Eval(Constant(0))], [Eval(Constant(1))], n, pc.next);
  }

  lemma PlainLabels(a: Atom)
    ensures Unique([Eval(Valued(a))]) && Defs([Eval(Valued(a))]) == {}
  {
  }

  lemma DiamondLabels(test: Code, through: Code, taken: Code, l1: Label, l2: Label)
    requires Unique(test) && Unique(through) && Unique(taken) && l1 != l2
    requires Defs(test) !! Defs(through) !! Defs(taken) !! {l1, l2}
    ensures Unique(Diamond(test, through, taken, l1, l2))
    ensures Defs(Diamond(test, through, taken, l1, l2)) == Defs(test) + Defs(through) + Defs(taken) + {l1, l2}
  {
    assert Defs([Goto(l2), Lab(l1)]) == {l1} by { assert [Goto(l2), Lab(l1)][1] == Lab(l1); }
    assert Defs([Lab(l2)]) == {l2} by { assert [Lab(l2)][0] == Lab(l2); }
    UniqueConcat(through, [Goto(l2), Lab(l1)]);
    UniqueConcat(through + [Goto(l2), Lab(l1)], taken);
    UniqueConcat(through + [Goto(l2), Lab(l1)] + taken, [Lab(l2)]);
    UniqueConcat(test, through + [Goto(l2), Lab(l1)] + taken + [Lab(l2)]);
  }

  lemma DiamondPlaces(p: Code, at: nat, test: Code, through: Code, taken: Code, l1: Label, l2: Label)
    requires At(p, at, Diamond(test, through, taken, l1, l2))
    ensures var one := at + |test|; var two := one + |through| + 2; var end := two + |taken| + 1;
            && end == at + |Diamond(test, through, taken, l1, l2)| <= |p|
            && At(p, at, test) && At(p, one, through) && At(p, two, taken)
            && p[two - 2] == Goto(l2) && p[two - 1] == Lab(l1) && p[end - 1] == Lab(l2)
  {
    var one := at + |test|;
    var two := one + |through| + 2;
    AtSplit(p, at, test, through + [Goto(l2), Lab(l1)] + taken + [Lab(l2)]);
    AtSplit(p, one, through + [Goto(l2), Lab(l1)] + taken, [Lab(l2)]);
    AtSplit(p, one, through + [Goto(l2), Lab(l1)], taken);
    AtSplit(p, one, through, [Goto(l2), Lab(l1)]);
    AtHead(p, two - 2, [Goto(l2), Lab(l1)]);
    AtSplit(p, two - 2, [Goto(l2)], [Lab(l1)]);
    AtHead(p, two - 1, [Lab(l1)]);
    AtHead(p, two + |taken|, [Lab(l2)]);
  }

  /** Both ways through a diamond end after it. */
  lemma DiamondCorrect(w: World, p: Code, at: nat, test: Code, through: Code, taken: Code, l1: Label,
        l2: Label, s: Conf)
    requires Unique(p) && At(p, at, Diamond(test, through, taken, l1, l2))
    ensures var one := at + |test|; var two := one + |through| + 2; var end := two + |taken| + 1;
            && At(p, at, test) && At(p, one, through) && At(p, two, taken)
            && Find(p, l1) == two - 1 && end == at + |Diamond(test, through, taken, l1, l2)|
            && Reach(w, p, Conf(two - 1, s.h), Conf(two, s.h), 1)
            && Reach(w, p, Conf(two - 2, s.h), Conf(end, s.h), 1)
            && Reach(w, p, Conf(end - 1, s.h), Conf(end, s.h), 1)
  {
    hide Run, At, Diamond;
    var two := at + |test| + |through| + 2;
    DiamondPlaces(p, at, test, through, taken, l1, l2);
    FindUnique(p, two - 1);
    FindUnique(p, two + |taken|);
    var out, last, end := Conf(two - 2, s.h), Conf(two + |taken|, s.h), Conf(two + |taken| + 1, s.h);
    ReachStep(w, p, Conf(two - 1, s.h));
    ReachStep(w, p, out);
    ReachStep(w, p, last);
    ReachTrans(w, p, out, last, end, 1, 1);
  }

  /** The code for a value falls through its end having made exactly the
      evaluations, in order, and left the value, that the expression calls for. */
  lemma {:induction false} ValueCorrect(w: World, p: Code, at: nat, v: Value, n: Label, h: History)
    requires Unique(p) && At(p, at, ValueCode(v, n).code)
    ensures Reach(w, p, Conf(at, h), Conf(at + |ValueCode(v, n).code|, Evaluate(w, v, h)), 0)
    decreases v, 1
  {
    hide Jumps, Truth, Find;
    match v
    case Plain(a) =>
      AtHead(p, at, ValueCode(v, n).code);
      ReachStep(w, p, Conf(at, h));
    case Logical(c) => LogicalCorrect(w, p, at, c, n, h);
    case Question(c, yes, no) => QuestionCorrect(w, p, at, v, n, h);
  }

  lemma {:induction false} QuestionCorrect(w: World, p: Code, at: nat, v: Value, n: Label, h: History)
    requires v.Question? && Unique(p) && At(p, at, ValueCode(v, n).code)
    ensures Reach(w, p, Conf(at, h), Conf(at + |ValueCode(v, n).code|, Evaluate(w, v, h)), 0)
    decreases v, 0
  {
    hide Jumps, Truth, Find, Run, ValueCode, Evaluate;
    var pc := Jumps(v.c, false, n, n + 1);
    var py := ValueCode(v.yes, pc.next);
    var pn := ValueCode(v.no, py.next + 1);
    var (b, h1) := Truth(w, v.c, h);
    var two := at + |pc.code| + |py.code| + 2;
    QuestionCode(v.c, v.yes, v.no, n);
    DiamondCorrect(w, p, at, pc.code, py.code, pn.code, n, py.next, Conf(at, h1));
    JumpsCorrect(w, p, at, v.c, false, n, n + 1, h);
    if b {
      ValueCorrect(w, p, at + |pc.code|, v.yes, pc.next, h1);
    } else {
      ReachTrans(w, p, Conf(at, h), Conf(two - 1, h1), Conf(two, h1), 0, 1);
      ValueCorrect(w, p, two, v.no, py.next + 1, h1);
    }
    QuestionExit(w, p, at, v, n, h);
  }

  /** From the end of the chosen side of a question mark to the end of it all. */
  lemma QuestionExit(w: World, p: Code, at: nat, v: Value, n: Label, h: History)
    requires v.Question? && Unique(p) && At(p, at, ValueCode(v, n).code)
    requires var pc := Jumps(v.c, false, n, n + 1); var py := ValueCode(v.yes, pc.next);
             var two := at + |pc.code| + |py.code| + 2; var (b, h1) := Truth(w, v.c, h);
             && (b ==> Reach(w, p, Conf(at, h), Conf(at + |pc.code|, h1), 0))
             && (b ==> Reach(w, p, Conf(at + |pc.code|, h1), Conf(two - 2, Evaluate(w, v.yes, h1)), 0))
             && (!b ==> Reach(w, p, Conf(at, h), Conf(two, h1), 0))
             && (!b ==> Reach(w, p, Conf(two, h1), Conf(two + |ValueCode(v.no, py.next + 1).code|, Evaluate(w, v.no, h1)), 0))
    ensures Reach(w, p, Conf(at, h), Conf(at + |ValueCode(v, n).code|, Evaluate(w, v, h)), 0)
  {
    hide Jumps, Truth, Find, Run;
    var pc := Jumps(v.c, false, n, n + 1);
    var py := ValueCode(v.yes, pc.next);
    var pn := ValueCode(v.no, py.next + 1);
    var (b, h1) := Truth(w, v.c, h);
    var h2 := Evaluate(w, v, h);
    var two := at + |pc.code| + |py.code| + 2;
    DiamondCorrect(w, p, at, pc.code, py.code, pn.code, n, py.next, Conf(at, h2));
    if b {
      Through(w, p, Conf(at, h), Conf(at + |pc.code|, h1), Conf(two - 2, h2), Conf(two + |pn.code| + 1, h2));
    } else {
      Through(w, p, Conf(at, h), Conf(two, h1), Conf(two + |pn.code|, h2), Conf(two + |pn.code| + 1, h2));
    }
  }

  lemma Through(w: World, p: Code, s: Conf, t: Conf, u: Conf, v: Conf)
    requires Reach(w, p, s, t, 0) && Reach(w, p, t, u, 0) && Reach(w, p, u, v, 1)
    ensures Reach(w, p, s, v, 0)
  {
    hide Run;
    ReachTrans(w, p, s, t, u, 0, 0);
    ReachTrans(w, p, s, u, v, 0, 1);
  }

  lemma LogicalCorrect(w: World, p: Code, at: nat, c: Cond, n: Label, h: History)
    requires Unique(p) && At(p, at, ValueCode(Logical(c), n).code)
    ensures Reach(w, p, Conf(at, h), Conf(at + |ValueCode(Logical(c), n).code|, Evaluate(w, Logical(c), h)), 0)
  {
    hide Jumps, Truth, Find, Run;
    var pc := Jumps(c, true, n, n + 1);
    var zero, one := [Eval(Constant(0))], [Eval(Constant(1))];
    var (b, h1) := Truth(w, c, h);
    var h2 := h1 + [Constant(if b then 1 else 0)];
    DiamondCorrect(w, p, at, pc.code, zero, one, n, pc.next, Conf(at, h1));
    DiamondCorrect(w, p, at, pc.code, zero, one, n, pc.next, Conf(at, h2));
    JumpsCorrect(w, p, at, c, true, n, n + 1, h);
    var first, two := at + |pc.code|, at + |pc.code| + 3;
    AtHead(p, first, zero);
    AtHead(p, two, one);
    if b {
      ReachTrans(w, p, Conf(at, h), Conf(two - 1, h1), Conf(two, h1), 0, 1);
      ReachStep(w, p, Conf(two, h1));
      Through(w, p, Conf(at, h), Conf(two, h1), Conf(two + 1, h2), Conf(two + 2, h2));
    } else {
      ReachStep(w, p, Conf(first, h1));
      Through(w, p, Conf(at, h), Conf(first, h1), Conf(two - 2, h2), Conf(two + 2, h2));
    }
  }

  /** The second pass: labels and emitted code are its state. */
  class CodeGen {
    var code: Code
    var nextlabel: Label

    constructor (first: Label)
      ensures code == [] && nextlabel == first
    {
      code, nextlabel := [], first;
    }

    method Out(i: Instr)
      modifies `code
      ensures code == old(code) + [i]
    {
      code := code + [i];
    }

    method CondBr(tp: Cond, dir: bool, lab: Label)
      modifies this
      ensures code == old(code) + Jumps(tp, dir, lab, old(nextlabel)).code
      ensures nextlabel == Jumps(tp, dir, lab, old(nextlabel)).next
      decreases tp, 1
    {
      match tp
      case CInt(v) =>
        if v == 0 {
          if !dir { Out(Goto(lab)); }
        } else if dir {
          Out(Goto(lab));
        }
      case Not(c) => CondBr(c, !dir, lab);
      case Comma(a, c) =>
        Out(Eval(Did(a)));
        CondBr(c, dir, lab);
      case Rel(op, unsigned, a) =>
        Out(Eval(Compared(a)));
        Out(Branch(if dir then op else InvRel(op), unsigned, lab));
      case Test(a) =>
        Out(Eval(Tested(a)));
        Out(Branch(if dir then NEquals else InvRel(NEquals), false, lab));
      case _ => AndOr(tp, dir, lab);
    }

    method AndOr(tp: Cond, dir: bool, lab: Label)
      requires tp.And? || tp.Or?
      modifies this
      ensures code == old(code) + Jumps(tp, dir, lab, old(nextlabel)).code
      ensures nextlabel == Jumps(tp, dir, lab, old(nextlabel)).next
      decreases tp, 0
    {
      hide Jumps;
      JumpsTwo(tp, dir, lab, nextlabel);
      var through := if tp.And? then !dir else dir;
      if !through {
        var lab1 := nextlabel;
        nextlabel := nextlabel + 1;
        CondBr(tp.l, !dir, lab1);
        CondBr(tp.r, dir, lab);
        Out(Lab(lab1));
      } else {
        CondBr(tp.l, dir, lab);
        CondBr(tp.r, dir, lab);
      }
    }

    method GenValue(v: Value)
      modifies this
      ensures code == old(code) + ValueCode(v, old(nextlabel)).code
      ensures nextlabel == ValueCode(v, old(nextlabel)).next
      decreases v, 1
    {
      match v
      case Plain(a) => Out(Eval(Valued(a)));
      case Logical(c) => HardRel(c);
      case Question(c, yes, no) => CqMark(c, yes, no);
    }

    method HardRel(c: Cond)
      modifies this
      ensures code == old(code) + ValueCode(Logical(c), old(nextlabel)).code
      ensures nextlabel == ValueCode(Logical(c), old(nextlabel)).next
    {
      hide Jumps;
      var lab1 := nextlabel;
      nextlabel := nextlabel + 1;
      CondBr(c, true, lab1);
      Out(Eval(Constant(0)));
      var lab2 := nextlabel;
      nextlabel := nextlabel + 1;
      Out(Goto(lab2));
      Out(Lab(lab1));
      Out(Eval(Constant(1)));
      Out(Lab(lab2));
    }

    method CqMark(c: Cond, yes: Value, no: Value)
      modifies this
      ensures code == old(code) + ValueCode(Question(c, yes, no), old(nextlabel)).code
      ensures nextlabel == ValueCode(Question(c, yes, no), old(nextlabel)).next
      decreases Question(c, yes, no), 0
    {
      hide Jumps, ValueCode;
      QuestionCode(c, yes, no, nextlabel);
      var lab1 := nextlabel;
      nextlabel := nextlabel + 1;
      CondBr(c, false, lab1);
      ghost var test := Jumps(c, false, lab1, lab1 + 1);
      GenValue(yes);
      ghost var through := ValueCode(yes, test.next);
      var lab2 := nextlabel;
      nextlabel := nextlabel + 1;
      Out(Goto(lab2));
      Out(Lab(lab1));
      assert code == old(code) + test.code + (through.code + [Goto(lab2), Lab(lab1)]);
      GenValue(no);
      Out(Lab(lab2));
      ghost var taken := ValueCode(no, lab2 + 1);
      assert code == old(code) + test.code + (through.code + [Goto(lab2), Lab(lab1)] + taken.code + [Lab(lab2)]);
    }
  }
}
