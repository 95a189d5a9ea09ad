/** The second pass over the first pass's code: every conditional goto becomes
    the jumps of its tree, everything else stays. */
module SecondPass {
  import opened Arithmetic
  import opened Machine
  import opened Options
  import opened Condbr
  import opened Flow
  import opened SwitchTable
  import opened FirstPass
  import opened FlowCorrect

  function LowerOne(i: Instr, m: Label): (p: Piece)
    ensures p.next >= m
  {
    if i.IfGoto? then Jumps(i.c, i.dir, i.l, m) else Piece([i], m)
  }

  /** The label counter when instruction i is reached. */
  function LabelAt(p: Code, m: Label, i: nat): (l: Label)
    requires i <= |p|
    ensures l >= m
  {
    if i == 0 then m else LowerOne(p[i - 1], LabelAt(p, m, i - 1)).next
  }

  /** The lowered form of the first i instructions. */
  function Lowered(p: Code, m: Label, i: nat): Code
    requires i <= |p|
  {
    if i == 0 then [] else Lowered(p, m, i - 1) + LowerOne(p[i - 1], LabelAt(p, m, i - 1)).code
  }

  function Pos(p: Code, m: Label, i: nat): nat
    requires i <= |p|
  {
    |Lowered(p, m, i)|
  }

  function Out(p: Code, m: Label): Code { Lowered(p, m, |p|) }

  lemma {:induction false} Prefix(p: Code, m: Label, i: nat, j: nat)
    requires i <= j <= |p|
    ensures Pos(p, m, i) <= Pos(p, m, j) && Lowered(p, m, j)[..Pos(p, m, i)] == Lowered(p, m, i)
    decreases j
  {
    if i < j {
      Prefix(p, m, i, j - 1);
    }
  }

  lemma PieceAt(p: Code, m: Label, i: nat)
    requires i < |p|
    ensures At(Out(p, m), Pos(p, m, i), LowerOne(p[i], LabelAt(p, m, i)).code)
    ensures Pos(p, m, i + 1) == Pos(p, m, i) + |LowerOne(p[i], LabelAt(p, m, i)).code|
  {
    hide LowerOne, Lowered;
    var c := LowerOne(p[i], LabelAt(p, m, i)).code;
    LoweredNext(p, m, i);
    Prefix(p, m, i + 1, |p|);
    var q := Out(p, m);
    assert q[Pos(p, m, i)..Pos(p, m, i) + |c|] == q[..Pos(p, m, i + 1)][Pos(p, m, i)..];
  }

  lemma LoweredNext(p: Code, m: Label, i: nat)
    requires i < |p|
    ensures Lowered(p, m, i + 1) == Lowered(p, m, i) + LowerOne(p[i], LabelAt(p, m, i)).code
  {
    hide LowerOne;
  }

  /** All labels an instruction jumps to or defines are below m. */
  predicate Below(i: Instr, m: Label) {
    match i
    case Lab(l) => l < m
    case Goto(l) => l < m
    case IfGoto(_, _, l) => l < m
    case Eval(_) => true
    case Branch(_, _, l) => l < m
    case Jump(t, d) => d < m && forall e :: e in t ==> e.lab < m
  }

  predicate AllBelow(p: Code, m: Label) {
    forall i :: i in p ==> Below(i, m)
  }

  lemma LowerOneLabels(i: Instr, m: Label, k: Label)
    requires Below(i, m) && m <= k
    ensures var q := LowerOne(i, k); Unique(q.code) && (forall l :: l in Defs(q.code) ==> l < m || k <= l < q.next)
    ensures forall l: Label :: l < m ==> (l in Defs(LowerOne(i, k).code) <==> i == Lab(l))
  {
    hide Jumps;
    if i.IfGoto? {
      JumpsLabels(i.c, i.dir, i.l, k);
    } else {
      assert [i][0] == i;
    }
  }

  /** Lowering keeps labels distinct, and the old labels where they were. */
  lemma {:induction false} LoweredLabels(p: Code, m: Label, i: nat)
    requires Unique(p) && AllBelow(p, m) && i <= |p|
    ensures Unique(Lowered(p, m, i))
    ensures forall l :: l in Defs(Lowered(p, m, i)) ==> l < m || l < LabelAt(p, m, i)
    ensures forall l :: l < m && l in Defs(Lowered(p, m, i)) ==> Lab(l) in p[..i]
  {
    hide LowerOne, Unique, Defs;
    if i > 0 {
      var a, k := Lowered(p, m, i - 1), LabelAt(p, m, i - 1);
      var q := LowerOne(p[i - 1], k);
      LoweredLabels(p, m, i - 1);
      LowerOneLabels(p[i - 1], m, k);
      assert p[..i] == p[..i - 1] + [p[i - 1]];
      forall l | l in Defs(a) ensures l !in Defs(q.code) {
        if l < m && p[i - 1] == Lab(l) {
          LabTwice(p, l, i - 1);
        }
      }
      UniqueConcat(a, q.code);
      LoweredNext(p, m, i - 1);
      assert Lowered(p, m, i) == a + q.code;
      forall l | l < m && l in Defs(a + q.code) ensures Lab(l) in p[..i] {
        if l in Defs(a) {
          assert Lab(l) in p[..i - 1];
        } else {
          assert p[i - 1] == Lab(l);
        }
      }
    } else {
      DefinesPlain([]);
    }
  }

  lemma LabTwice(p: Code, l: Label, i: nat)
    requires Unique(p) && i < |p| && p[i] == Lab(l)
    ensures Lab(l) !in p[..i]
  {
  }

  /** Old labels are found where their instruction went. */
  lemma FindLowered(p: Code, m: Label, l: Label)
    requires Unique(p) && AllBelow(p, m) && l < m
    ensures Find(Out(p, m), l) == Pos(p, m, Find(p, l))
  {
    hide LowerOne, Unique, Lowered, Find;
    var q := Out(p, m);
    var i := Find(p, l);
    LoweredLabels(p, m, |p|);
    if i < |p| {
      PieceAt(p, m, i);
      LowerLabel(l, LabelAt(p, m, i));
      AtHead(q, Pos(p, m, i), [Lab(l)]);
      FindUnique(q, Pos(p, m, i));
    } else {
      assert p[..|p|] == p;
      NotDefined(q, l);
    }
  }

  lemma LowerLabel(l: Label, k: Label)
    ensures LowerOne(Lab(l), k).code == [Lab(l)]
  {
  }

  lemma NotDefined(q: Code, l: Label)
    requires l !in Defs(q)
    ensures Find(q, l) == |q|
  {
  }

  lemma SelectBelow(t: seq<Entry>, d: Label, v: int, m: Label)
    requires Below(Jump(t, d), m)
    ensures Select(t, d, v) < m
  {
    SelectIn(t, d, v);
  }

  /** One step of the first-pass code, in at least k steps of the final code;
      only a conditional that falls through may take none. */
  lemma StepLowered(w: World, p: Code, m: Label, s: Conf) returns (k: nat)
    requires Unique(p) && AllBelow(p, m) && s.pc < |p|
    ensures var t := Step(w, p, s);
            && t.pc <= |p| && Reach(w, Out(p, m), Conf(Pos(p, m, s.pc), s.h), Conf(Pos(p, m, t.pc), t.h), k)
            && (k == 0 ==> t.pc == s.pc + 1)
  {
    hide LowerOne, Unique, Lowered, Find, Run, Jumps, Truth;
    var q := Out(p, m);
    var a := Conf(Pos(p, m, s.pc), s.h);
    var t := Step(w, p, s);
    var i := p[s.pc];
    var c := LowerOne(i, LabelAt(p, m, s.pc)).code;
    assert Below(i, m);
    PieceAt(p, m, s.pc);
    if i.IfGoto? {
      k := ConditionalLowered(w, p, m, s);
    } else {
      k := 1;
      LowerPlain(i, LabelAt(p, m, s.pc));
      AtHead(q, a.pc, c);
      ReachStep(w, q, a);
      if i.Goto? || i.Branch? {
        FindLowered(p, m, i.l);
      } else if i.Jump? {
        SelectBelow(i.table, i.dflt, Selector(w, s.h), m);
        FindLowered(p, m, Select(i.table, i.dflt, Selector(w, s.h)));
      }
    }
  }

  lemma LowerPlain(i: Instr, k: Label)
    requires !i.IfGoto?
    ensures LowerOne(i, k).code == [i]
  {
  }

  lemma ConditionalLowered(w: World, p: Code, m: Label, s: Conf) returns (k: nat)
    requires Unique(p) && AllBelow(p, m) && s.pc < |p| && p[s.pc].IfGoto?
    ensures var t := Step(w, p, s);
            && t.pc <= |p| && Reach(w, Out(p, m), Conf(Pos(p, m, s.pc), s.h), Conf(Pos(p, m, t.pc), t.h), k)
            && (k == 0 ==> t.pc == s.pc + 1)
  {
    hide Unique, Lowered, Find, Run, Jumps, Truth;
    var q := Out(p, m);
    var i, l := p[s.pc], LabelAt(p, m, s.pc);
    var a := Conf(Pos(p, m, s.pc), s.h);
    var t := Step(w, p, s);
    assert Below(i, m);
    PieceAt(p, m, s.pc);
    LoweredLabels(p, m, |p|);
    FindLowered(p, m, i.l);
    JumpsCorrect(w, q, a.pc, i.c, i.dir, i.l, l, s.h);
    var b := Conf(Pos(p, m, t.pc), t.h);
    if t.pc == s.pc + 1 {
      k := 0;
    } else {
      k := 1;
      TakenMoves(w, p, m, s);
      ReachDistinct(w, q, a, b);
    }
  }

  /** A conditional that jumps is not lowered to nothing. */
  lemma {:induction false} TakenNotEmpty(w: World, c: Cond, dir: bool, lab: Label, n: Label, h: History)
    requires Truth(w, c, h).0 == dir
    ensures Jumps(c, dir, lab, n).code != []
    decreases Size(c), 1
  {
    match c
    case Not(c1) => TakenNotEmpty(w, c1, !dir, lab, n, h);
    case And(l, r) => if !dir { TakenChained(w, l, r, dir, lab, n, h); }
    case Or(l, r) => if dir { TakenChained(w, l, r, dir, lab, n, h); }
    case _ =>
  }

  lemma {:induction false} TakenChained(w: World, l: Cond, r: Cond, dir: bool, lab: Label, n: Label, h: History)
    requires Truth(w, l, h).0 == dir || Truth(w, r, Truth(w, l, h).1).0 == dir
    ensures Jumps(l, dir, lab, n).code + Jumps(r, dir, lab, Jumps(l, dir, lab, n).next).code != []
    decreases Size(l) + Size(r), 2
  {
    hide Jumps, Truth;
    if Truth(w, l, h).0 == dir {
      TakenNotEmpty(w, l, dir, lab, n, h);
    } else {
      TakenNotEmpty(w, r, dir, lab, Jumps(l, dir, lab, n).next, Truth(w, l, h).1);
    }
  }

  lemma TakenMoves(w: World, p: Code, m: Label, s: Conf)
    requires s.pc < |p| && p[s.pc].IfGoto?
    requires Step(w, p, s).pc != s.pc + 1
    ensures Step(w, p, s).pc <= |p| && Pos(p, m, Step(w, p, s).pc) != Pos(p, m, s.pc)
  {
    hide Lowered, Jumps, Truth;
    var i, t := p[s.pc], Step(w, p, s).pc;
    PieceAt(p, m, s.pc);
    if t > s.pc {
      TakenNotEmpty(w, i.c, i.dir, i.l, LabelAt(p, m, s.pc), s.h);
      Prefix(p, m, s.pc + 1, t);
    } else {
      PieceAt(p, m, t);
      Prefix(p, m, t + 1, s.pc);
    }
  }

  lemma ReachDistinct(w: World, p: Code, s: Conf, t: Conf)
    requires Reach(w, p, s, t, 0) && s != t
    ensures Reach(w, p, s, t, 1)
  {
    var n: nat :| n >= 0 && Run(w, p, s, n) == Some(t);
    assert n != 0;
  }

  /** A run of the first-pass code is a run of the final code; among any |p| + 1
      steps of it at least one is not lost. */
  lemma {:induction false} RunLowered(w: World, p: Code, m: Label, s: Conf, n: nat) returns (k: nat)
    requires Unique(p) && AllBelow(p, m) && s.pc <= |p| && Run(w, p, s, n).Some?
    ensures var t := Run(w, p, s, n).value;
            && t.pc <= |p| && Reach(w, Out(p, m), Conf(Pos(p, m, s.pc), s.h), Conf(Pos(p, m, t.pc), t.h), k)
            && n + s.pc <= k * (|p| + 1) + t.pc
    decreases n
  {
    hide Unique, Lowered, Find, Below, Run, Step, Reach;
    RunNext(w, p, s, n);
    if n == 0 {
      k := 0;
      ReachSelf(w, Out(p, m), Conf(Pos(p, m, s.pc), s.h));
    } else {
      var s1 := Step(w, p, s);
      var t := Run(w, p, s, n).value;
      var k1 := StepLowered(w, p, m, s);
      var k2 := RunLowered(w, p, m, s1, n - 1);
      var k0 := if k1 == 0 then 0 else 1;
      var a, b, c := Conf(Pos(p, m, s.pc), s.h), Conf(Pos(p, m, s1.pc), s1.h), Conf(Pos(p, m, t.pc), t.h);
      Weaken(w, Out(p, m), a, b, k1, k0);
      ReachTrans(w, Out(p, m), a, b, c, k0, k2);
      OneMore(k2, |p| + 1);
      k := k0 + k2;
    }
  }

  lemma RunNext(w: World, p: Code, s: Conf, n: nat)
    ensures Run(w, p, s, 0) == Some(s)
    ensures n > 0 && Run(w, p, s, n).Some? ==> s.pc < |p| && Run(w, p, s, n) == Run(w, p, Step(w, p, s), n - 1)
  {
  }

  lemma OneMore(k: nat, len: nat)
    ensures (1 + k) * len == k * len + len
  {
  }

  lemma Weaken(w: World, p: Code, s: Conf, t: Conf, j: nat, k: nat)
    requires Reach(w, p, s, t, j) && k <= j
    ensures Reach(w, p, s, t, k)
  {
    hide Run;
  }

  lemma {:induction false} TableFrom(entries: seq<Entry>)
    ensures forall e :: e in Table(entries) ==> e in entries
  {
    if entries != [] {
      TableFrom(entries[..|entries| - 1]);
      InsertFrom(Table(entries[..|entries| - 1]), entries[|entries| - 1]);
    }
  }

  predicate CtxBelow(x: Ctx, m: Label) {
    x.b < m && x.c < m && x.r < m
  }

  predicate EmittedBelow(g: Emitted, m: Label) {
    AllBelow(g.code, m) && g.dflt < m && forall e :: e in g.cases ==> e.lab < m
  }

  lemma LoopBelow(top: Label, body: Code, cont: Label, step: Option<Atom>, c: Option<Cond>, test: Label,
        brk: Label, m: Label)
    requires AllBelow(body, m) && top < m && cont < m && test < m && brk < m
    ensures AllBelow(LoopCode(top, body, cont, step, Tail(c, test, top), brk), m)
  {
  }

  lemma ForBelow(init: Option<Atom>, jump: Code, loop: Code, m: Label)
    requires AllBelow(jump, m) && AllBelow(loop, m)
    ensures AllBelow(EvalCode(init) + (jump + loop), m) && AllBelow(EvalCode(init) + loop, m) && AllBelow(jump + loop, m)
  {
  }

  lemma IfElseBelow(c: Cond, thn: Code, els: Code, l1: Label, l2: Label, m: Label)
    requires AllBelow(thn, m) && AllBelow(els, m) && l1 < m && l2 < m
    ensures AllBelow(IfElseCode(c, thn, els, l1, l2), m)
  {
  }

  lemma SwitchBelow(a: Atom, g: Emitted, n: Label, m: Label)
    requires EmittedBelow(g, m) && n + 1 < m
    ensures AllBelow(SwitchCode(a, g, n), m)
  {
    TableFrom(g.cases);
  }

  lemma OneBelow(i: Instr, c: Code, m: Label)
    requires Below(i, m) && AllBelow(c, m)
    ensures AllBelow([i] + c, m) && AllBelow(c + [i], m) && AllBelow([i], m)
  {
  }

  /** Emitted code mentions only labels already allocated. */
  lemma {:induction false} EmitBelow(s: Stmt, x: Ctx, n: Label, m: Label)
    requires CtxBelow(x, m) && n > 0 && Emit(s, x, n).next <= m
    ensures EmittedBelow(Emit(s, x, n), m)
    decreases s, 1
  {
    hide LoopCode, IfElseCode, SwitchCode, Tail, EvalCode, ReturnCode, AllBelow;
    match s
    case Seq(a, b) =>
      var ga := Emit(a, x, n);
      EmitBelow(a, x, n, m);
      EmitBelow(b, x, ga.next, m);
      BothBelow(ga.code, Emit(b, x, ga.next).code, m);
    case If(c, thn) =>
      IfBelow(c, thn, x, n, m);
    case IfElse(c, thn, els) =>
      if JumpLabel(thn, x) > 0 {
        EmitBelow(els, x, n, m);
        OneBelow(IfGoto(c, true, JumpLabel(thn, x)), Emit(els, x, n).code, m);
      } else {
        var gt := Emit(thn, x, n + 1);
        EmitBelow(thn, x, n + 1, m);
        EmitBelow(els, x, gt.next + 1, m);
        IfElseBelow(c, gt.code, Emit(els, x, gt.next + 1).code, n, gt.next, m);
      }
    case While(c, body) =>
      var g := Emit(body, Ctx(n, n + 2, x.r), n + 3);
      EmitBelow(body, Ctx(n, n + 2, x.r), n + 3, m);
      LoopBelow(n + 1, g.code, n + 2, None, Some(c), 0, n, m);
      OneBelow(Goto(n + 2), LoopCode(n + 1, g.code, n + 2, None, Tail(Some(c), 0, n + 1), n), m);
    case Do(body, c) =>
      EmitBelow(body, Ctx(n, n + 1, x.r), n + 3, m);
      LoopBelow(n + 2, Emit(body, Ctx(n, n + 1, x.r), n + 3).code, n + 1, None, c, 0, n, m);
    case For(init, c, step, body) => ForLoopBelow(init, c, step, body, x, n, m);
    case Switch(a, body) =>
      EmitBelow(body, Ctx(n, x.c, x.r), n + 2, m);
      SwitchBelow(a, Emit(body, Ctx(n, x.c, x.r), n + 2), n, m);
    case Case(_, s1) =>
      EmitBelow(s1, x, n + 1, m);
      OneBelow(Lab(n), Emit(s1, x, n + 1).code, m);
    case Default(s1) =>
      EmitBelow(s1, x, n + 1, m);
      OneBelow(Lab(n), Emit(s1, x, n + 1).code, m);
    case _ => SimpleBelow(s, x, n, m);
  }

  lemma SimpleBelow(s: Stmt, x: Ctx, n: Label, m: Label)
    requires s.Null? || s.Expr? || s.Break? || s.Continue? || s.Return?
    requires CtxBelow(x, m)
    ensures AllBelow(Emit(s, x, n).code, m)
  {
  }

  lemma BothBelow(a: Code, b: Code, m: Label)
    requires AllBelow(a, m) && AllBelow(b, m)
    ensures AllBelow(a + b, m)
  {
  }

  lemma {:induction false} IfBelow(c: Cond, thn: Stmt, x: Ctx, n: Label, m: Label)
    requires CtxBelow(x, m) && n > 0 && Emit(If(c, thn), x, n).next <= m
    ensures EmittedBelow(Emit(If(c, thn), x, n), m)
    decreases If(c, thn), 0
  {
    hide AllBelow;
    if JumpLabel(thn, x) > 0 {
      SimpleBelow(Null, x, n, m);
      OneBelow(IfGoto(c, true, JumpLabel(thn, x)), [], m);
    } else {
      var code := Emit(thn, x, n + 1).code;
      EmitBelow(thn, x, n + 1, m);
      OneBelow(Lab(n), code, m);
      OneBelow(IfGoto(c, false, n), code + [Lab(n)], m);
    }
  }

  lemma {:induction false} ForLoopBelow(init: Option<Atom>, c: Option<Cond>, step: Option<Atom>, body: Stmt,
        x: Ctx, n: Label, m: Label)
    requires CtxBelow(x, m) && n > 0 && Emit(For(init, c, step, body), x, n).next <= m
    ensures EmittedBelow(Emit(For(init, c, step, body), x, n), m)
    decreases For(init, c, step, body), 0
  {
    hide LoopCode, Tail, EvalCode, AllBelow;
    SimpleBelow(Null, x, n, m);
    OneBelow(Goto(0), [], m);
    if c.None? {
      var g := Emit(body, Ctx(n, n + 1, x.r), n + 3);
      EmitBelow(body, Ctx(n, n + 1, x.r), n + 3, m);
      LoopBelow(n + 2, g.code, n + 1, step, None, 0, n, m);
      ForBelow(init, [Goto(0)], LoopCode(n + 2, g.code, n + 1, step, Tail(None, 0, n + 2), n), m);
    } else {
      var g := Emit(body, Ctx(n, n + 1, x.r), n + 4);
      EmitBelow(body, Ctx(n, n + 1, x.r), n + 4, m);
      LoopBelow(n + 3, g.code, n + 1, step, c, n + 2, n, m);
      OneBelow(Goto(n + 2), [], m);
      ForBelow(init, [Goto(n + 2)], LoopCode(n + 3, g.code, n + 1, step, Tail(c, n + 2, n + 3), n), m);
    }
  }
}
