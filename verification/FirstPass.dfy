/** What the first pass emits for a statement, as a function of the labels in force. */
module FirstPass {
  import opened Machine
  import opened Options
  import opened Flow
  import opened SwitchTable
  import opened Condbr
  import opened Words

  /** Break, continue and return labels in force; 0 means none. */
  datatype Ctx = Ctx(b: Label, c: Label, r: Label)

  /** Emitted code, next free label, and what was added to the enclosing switch:
      its entries in the order of the text and its default label (0: none). */
  datatype Emitted = Emitted(code: Code, next: Label, cases: seq<Entry>, dflt: Label)

  /** The label of a statement that is just a jump, 0 for any other statement. */
  function JumpLabel(s: Stmt, x: Ctx): Label {
    match s
    case Break => x.b
    case Continue => x.c
    case Return(None) => x.r
    case _ => 0
  }

  function GotoCode(l: Label): Code { if l > 0 then [Goto(l)] else [] }

  function EvalCode(e: Option<Atom>): Code { if e.Some? then [Eval(Did(e.value))] else [] }

  function ReturnCode(e: Option<Atom>): Code { if e.Some? then [Eval(Returned(e.value))] else [] }

  /** The test at the bottom of a loop, with its own label when it has one. */
  function Tail(c: Option<Cond>, test: Label, top: Label): Code {
    if c.None? then [Goto(top)] else (if test > 0 then [Lab(test)] else []) + [IfGoto(c.value, true, top)]
  }

  function LoopCode(top: Label, body: Code, cont: Label, step: Option<Atom>, tail: Code, brk: Label): Code {
    [Lab(top)] + (body + ([Lab(cont)] + EvalCode(step) + (tail + [Lab(brk)])))
  }

  function Emit(s: Stmt, x: Ctx, n: Label): (g: Emitted)
    ensures g.next >= n
  {
    match s
    case Null => Emitted([], n, [], 0)
    case Expr(a) => Emitted([Eval(Did(a))], n, [], 0)
    case Break => Emitted(GotoCode(x.b), n, [], 0)
    case Continue => Emitted(GotoCode(x.c), n, [], 0)
    case Return(e) => Emitted(ReturnCode(e) + GotoCode(x.r), n, [], 0)
    case Seq(s1, s2) =>
      var g1 := Emit(s1, x, n);
      var g2 := Emit(s2, x, g1.next);
      Emitted(g1.code + g2.code, g2.next, g1.cases + g2.cases, if g2.dflt > 0 then g2.dflt else g1.dflt)
    case If(c, thn) =>
      if JumpLabel(thn, x) > 0 then Emitted([IfGoto(c, true, JumpLabel(thn, x))], n, [], 0)
      else
        var g := Emit(thn, x, n + 1);
        g.(code := [IfGoto(c, false, n)] + (g.code + [Lab(n)]))
    case IfElse(c, thn, els) =>
      if JumpLabel(thn, x) > 0 then
        var g := Emit(els, x, n);
        g.(code := [IfGoto(c, true, JumpLabel(thn, x))] + g.code)
      else
        var g1 := Emit(thn, x, n + 1);
        var g2 := Emit(els, x, g1.next + 1);
        Emitted(IfElseCode(c, g1.code, g2.code, n, g1.next), g2.next, g1.cases + g2.cases,
                if g2.dflt > 0 then g2.dflt else g1.dflt)
    case While(c, body) =>
      var g := Emit(body, Ctx(n, n + 2, x.r), n + 3);
      g.(code := [Goto(n + 2)] + LoopCode(n + 1, g.code, n + 2, None, Tail(Some(c), 0, n + 1), n))
    case Do(body, c) =>
      var g := Emit(body, Ctx(n, n + 1, x.r), n + 3);
      g.(code := LoopCode(n + 2, g.code, n + 1, None, Tail(c, 0, n + 2), n))
    case For(init, c, step, body) =>
      if c.None? then
        var g := Emit(body, Ctx(n, n + 1, x.r), n + 3);
        g.(code := EvalCode(init) + LoopCode(n + 2, g.code, n + 1, step, Tail(None, 0, n + 2), n))
      else
        var g := Emit(body, Ctx(n, n + 1, x.r), n + 4);
        g.(code := EvalCode(init) + ([Goto(n + 2)] + LoopCode(n + 3, g.code, n + 1, step, Tail(c, n + 2, n + 3), n)))
    case Switch(a, body) =>
      var g := Emit(body, Ctx(n, x.c, x.r), n + 2);
      Emitted(SwitchCode(a, g, n), g.next, [], 0)
    case Case(v, s1) =>
      var g := Emit(s1, x, n + 1);
      g.(code := [Lab(n)] + g.code, cases := [Entry(Short(v), n)] + g.cases)
    case Default(s1) =>
      var g := Emit(s1, x, n + 1);
      g.(code := [Lab(n)] + g.code, dflt := if g.dflt > 0 then g.dflt else n)
  }

  function IfElseCode(c: Cond, thn: Code, els: Code, elselab: Label, exitlab: Label): Code {
    [IfGoto(c, false, elselab)] + (thn + ([Goto(exitlab), Lab(elselab)] + (els + [Lab(exitlab)])))
  }

  /** n is the break label, n + 1 that of the switch operator after the body. */
  function SwitchCode(a: Atom, g: Emitted, n: Label): Code {
    [Eval(Switched(a)), Goto(n + 1)] + (g.code + SwitchTail(g, n))
  }

  function SwitchTail(g: Emitted, n: Label): Code {
    [Goto(n), Lab(n + 1), Jump(Table(g.cases), if g.dflt > 0 then g.dflt else n), Lab(n)]
  }

  /** The entries recorded are the case values of the text, and a default label
      is recorded exactly when there is a default. */
  lemma {:induction false} EmitCases(s: Stmt, x: Ctx, n: Label)
    requires n > 0
    ensures Values(Emit(s, x, n).cases) == CaseValues(s)
    ensures Emit(s, x, n).dflt > 0 <==> Contains(s, ToDefault)
  {
    hide Values, LoopCode, IfElseCode, SwitchCode, Tail, GotoCode, EvalCode, ReturnCode;
    ValuesNone();
    match s
    case Seq(a, b) =>
      EmitCases(a, x, n);
      EmitCases(b, x, Emit(a, x, n).next);
      ValuesConcat(Emit(a, x, n).cases, Emit(b, x, Emit(a, x, n).next).cases);
    case If(_, thn) => if JumpLabel(thn, x) == 0 { EmitCases(thn, x, n + 1); }
    case IfElse(_, thn, els) =>
      if JumpLabel(thn, x) > 0 {
        EmitCases(els, x, n);
        assert CaseValues(s) == CaseValues(els);
      } else {
        var g1 := Emit(thn, x, n + 1);
        EmitCases(thn, x, n + 1);
        EmitCases(els, x, g1.next + 1);
        ValuesConcat(g1.cases, Emit(els, x, g1.next + 1).cases);
      }
    case While(_, body) => EmitCases(body, Ctx(n, n + 2, x.r), n + 3);
    case Do(body, _) => EmitCases(body, Ctx(n, n + 1, x.r), n + 3);
    case For(_, c, _, body) => EmitCases(body, Ctx(n, n + 1, x.r), if c.None? then n + 3 else n + 4);
    case Case(v, s1) =>
      EmitCases(s1, x, n + 1);
      ValuesOne(Entry(Short(v), n));
      ValuesConcat([Entry(Short(v), n)], Emit(s1, x, n + 1).cases);
    case Default(s1) => EmitCases(s1, x, n + 1);
    case _ =>
  }

  /** A piece of code that defines exactly these labels, each once. */
  ghost predicate Defines(c: Code, ls: set<Label>) {
    Unique(c) && Defs(c) == ls
  }

  lemma DefinesOne(i: Instr)
    ensures Defines([i], if i.Lab? then {i.l} else {})
  {
    assert [i][0] == i;
  }

  lemma DefinesBoth(a: Code, la: set<Label>, b: Code, lb: set<Label>)
    requires Defines(a, la) && Defines(b, lb) && la !! lb
    ensures Defines(a + b, la + lb)
  {
    UniqueConcat(a, b);
  }

  lemma DefinesPlain(c: Code)
    requires |c| <= 1 && forall i :: i in c ==> !i.Lab?
    ensures Defines(c, {})
  {
  }

  lemma TailLabels(c: Option<Cond>, test: Label, top: Label)
    ensures Defines(Tail(c, test, top), if c.Some? && test > 0 then {test} else {})
  {
    if c.Some? {
      DefinesOne(Lab(test));
      DefinesOne(IfGoto(c.value, true, top));
      DefinesPlain([]);
      DefinesBoth(if test > 0 then [Lab(test)] else [], if test > 0 then {test} else {}, [IfGoto(c.value, true, top)], {});
    }
  }

  lemma LoopLabels(top: Label, body: Code, cont: Label, step: Option<Atom>, tail: Code, brk: Label,
        lb: set<Label>, lt: set<Label>)
    requires Defines(body, lb) && Defines(tail, lt)
    requires lb !! lt !! {top, cont, brk} && top != cont && cont != brk && top != brk
    ensures Defines(LoopCode(top, body, cont, step, tail, brk), lb + lt + {top, cont, brk})
  {
    hide Defines;
    DefinesOne(Lab(top));
    DefinesOne(Lab(cont));
    DefinesOne(Lab(brk));
    DefinesPlain(EvalCode(step));
    DefinesBoth(tail, lt, [Lab(brk)], {brk});
    DefinesBoth([Lab(cont)], {cont}, EvalCode(step), {});
    DefinesBoth([Lab(cont)] + EvalCode(step), {cont} + {}, tail + [Lab(brk)], lt + {brk});
    var rest := [Lab(cont)] + EvalCode(step) + (tail + [Lab(brk)]);
    DefinesBoth(body, lb, rest, {cont} + {} + (lt + {brk}));
    DefinesBoth([Lab(top)], {top}, body + rest, lb + ({cont} + {} + (lt + {brk})));
    assert {top} + (lb + ({cont} + {} + (lt + {brk}))) == lb + lt + {top, cont, brk};
  }

  lemma IfElseLabels(c: Cond, thn: Code, els: Code, elselab: Label, exitlab: Label, lt: set<Label>, le: set<Label>)
    requires Defines(thn, lt) && Defines(els, le) && lt !! le !! {elselab, exitlab} && elselab != exitlab
    ensures Defines(IfElseCode(c, thn, els, elselab, exitlab), lt + le + {elselab, exitlab})
  {
    hide Defines;
    DefinesOne(IfGoto(c, false, elselab));
    DefinesOne(Goto(exitlab));
    DefinesOne(Lab(elselab));
    DefinesOne(Lab(exitlab));
    DefinesBoth([Goto(exitlab)], {}, [Lab(elselab)], {elselab});
    DefinesBoth(els, le, [Lab(exitlab)], {exitlab});
    var mid := [Goto(exitlab), Lab(elselab)];
    assert mid == [Goto(exitlab)] + [Lab(elselab)];
    DefinesBoth(mid, {} + {elselab}, els + [Lab(exitlab)], le + {exitlab});
    DefinesBoth(thn, lt, mid + (els + [Lab(exitlab)]), {} + {elselab} + (le + {exitlab}));
    DefinesBoth([IfGoto(c, false, elselab)], {}, thn + (mid + (els + [Lab(exitlab)])), lt + ({} + {elselab} + (le + {exitlab})));
    assert {} + (lt + ({} + {elselab} + (le + {exitlab}))) == lt + le + {elselab, exitlab};
  }

  lemma SwitchLabels(a: Atom, g: Emitted, n: Label, lg: set<Label>)
    requires Defines(g.code, lg) && lg !! {n, n + 1}
    ensures Defines(SwitchCode(a, g, n), lg + {n, n + 1})
  {
    var head, tail := [Eval(Switched(a)), Goto(n + 1)], SwitchTail(g, n);
    assert Defines(head, {});
    assert Defines(tail, {n, n + 1}) by {
      assert tail[1] == Lab(n + 1) && tail[3] == Lab(n);
    }
    DefinesBoth(g.code, lg, tail, {n, n + 1});
    DefinesBoth(head, {}, g.code + tail, lg + {n, n + 1});
  }

  predicate Within(ls: set<Label>, lo: Label, hi: Label) {
    forall l :: l in ls ==> lo <= l < hi
  }

  /** Every label a statement defines is new, and is defined once. */
  lemma {:induction false} EmitLabels(s: Stmt, x: Ctx, n: Label)
    ensures var g := Emit(s, x, n); Unique(g.code) && Within(Defs(g.code), n, g.next)
    decreases s, 1
  {
    hide Unique, Defs, LoopCode, IfElseCode, SwitchCode, Tail;
    var g := Emit(s, x, n);
    match s
    case Seq(a, b) =>
      var g1 := Emit(a, x, n);
      EmitLabels(a, x, n);
      EmitLabels(b, x, g1.next);
      UniqueConcat(g1.code, Emit(b, x, g1.next).code);
    case If(c, thn) => IfLabels(c, thn, x, n);
    case IfElse(c, thn, els) => IfElseFresh(c, thn, els, x, n);
    case While(c, body) =>
      EmitLabels(body, Ctx(n, n + 2, x.r), n + 3);
      var code := Emit(body, Ctx(n, n + 2, x.r), n + 3).code;
      TailLabels(Some(c), 0, n + 1);
      LoopLabels(n + 1, code, n + 2, None, Tail(Some(c), 0, n + 1), n, Defs(code), {});
      DefinesOne(Goto(n + 2));
      UniqueConcat([Goto(n + 2)], LoopCode(n + 1, code, n + 2, None, Tail(Some(c), 0, n + 1), n));
    case Do(body, c) =>
      EmitLabels(body, Ctx(n, n + 1, x.r), n + 3);
      var code := Emit(body, Ctx(n, n + 1, x.r), n + 3).code;
      TailLabels(c, 0, n + 2);
      LoopLabels(n + 2, code, n + 1, None, Tail(c, 0, n + 2), n, Defs(code), {});
    case For(init, c, step, body) => ForLabels(init, c, step, body, x, n);
    case Switch(a, body) =>
      EmitLabels(body, Ctx(n, x.c, x.r), n + 2);
      var gb := Emit(body, Ctx(n, x.c, x.r), n + 2);
      SwitchLabels(a, gb, n, Defs(gb.code));
    case Case(v, s1) =>
      EmitLabels(s1, x, n + 1);
      DefinesOne(Lab(n));
      UniqueConcat([Lab(n)], Emit(s1, x, n + 1).code);
    case Default(s1) =>
      EmitLabels(s1, x, n + 1);
      DefinesOne(Lab(n));
      UniqueConcat([Lab(n)], Emit(s1, x, n + 1).code);
    case _ => SimpleLabels(s, x, n);
  }

  lemma SimpleLabels(s: Stmt, x: Ctx, n: Label)
    requires s.Null? || s.Expr? || s.Break? || s.Continue? || s.Return?
    ensures Defines(Emit(s, x, n).code, {})
  {
  }

  lemma {:induction false} IfLabels(c: Cond, thn: Stmt, x: Ctx, n: Label)
    ensures var g := Emit(If(c, thn), x, n); Unique(g.code) && Within(Defs(g.code), n, g.next)
    decreases If(c, thn), 0
  {
    hide Unique, Defs;
    if JumpLabel(thn, x) > 0 {
      DefinesOne(IfGoto(c, true, JumpLabel(thn, x)));
    } else {
      EmitLabels(thn, x, n + 1);
      var code := Emit(thn, x, n + 1).code;
      DefinesOne(IfGoto(c, false, n));
      DefinesOne(Lab(n));
      UniqueConcat(code, [Lab(n)]);
      UniqueConcat([IfGoto(c, false, n)], code + [Lab(n)]);
    }
  }

  lemma {:induction false} IfElseFresh(c: Cond, thn: Stmt, els: Stmt, x: Ctx, n: Label)
    ensures var g := Emit(IfElse(c, thn, els), x, n); Unique(g.code) && Within(Defs(g.code), n, g.next)
    decreases IfElse(c, thn, els), 0
  {
    hide Unique, Defs, IfElseCode;
    if JumpLabel(thn, x) > 0 {
      EmitLabels(els, x, n);
      DefinesOne(IfGoto(c, true, JumpLabel(thn, x)));
      UniqueConcat([IfGoto(c, true, JumpLabel(thn, x))], Emit(els, x, n).code);
    } else {
      var g1 := Emit(thn, x, n + 1);
      var g2 := Emit(els, x, g1.next + 1);
      EmitLabels(thn, x, n + 1);
      EmitLabels(els, x, g1.next + 1);
      IfElseLabels(c, g1.code, g2.code, n, g1.next, Defs(g1.code), Defs(g2.code));
    }
  }

  lemma {:induction false} ForLabels(init: Option<Atom>, c: Option<Cond>, step: Option<Atom>, body: Stmt,
        x: Ctx, n: Label)
    ensures var g := Emit(For(init, c, step, body), x, n); Unique(g.code) && Within(Defs(g.code), n, g.next)
    decreases For(init, c, step, body), 0
  {
    hide Unique, Defs, LoopCode, Tail;
    DefinesPlain(EvalCode(init));
    if c.None? {
      EmitLabels(body, Ctx(n, n + 1, x.r), n + 3);
      var code := Emit(body, Ctx(n, n + 1, x.r), n + 3).code;
      TailLabels(None, 0, n + 2);
      LoopLabels(n + 2, code, n + 1, step, Tail(None, 0, n + 2), n, Defs(code), {});
      UniqueConcat(EvalCode(init), LoopCode(n + 2, code, n + 1, step, Tail(None, 0, n + 2), n));
    } else {
      EmitLabels(body, Ctx(n, n + 1, x.r), n + 4);
      var code := Emit(body, Ctx(n, n + 1, x.r), n + 4).code;
      TailLabels(c, n + 2, n + 3);
      var loop := LoopCode(n + 3, code, n + 1, step, Tail(c, n + 2, n + 3), n);
      LoopLabels(n + 3, code, n + 1, step, Tail(c, n + 2, n + 3), n, Defs(code), {n + 2});
      DefinesOne(Goto(n + 2));
      UniqueConcat([Goto(n + 2)], loop);
      UniqueConcat(EvalCode(init), [Goto(n + 2)] + loop);
    }
  }

  /** A function body as the first pass leaves it: r is its return label. */
  function Body(s: Stmt, r: Label, n: Label): Code {
    Emit(s, Ctx(0, 0, r), n).code + [Lab(r)]
  }

  // What each compound statement comes to, one level deep.

  lemma SeqMeaning(a: Stmt, b: Stmt, x: Ctx, n: Label, sw: SwitchCtx)
    ensures var g1 := Emit(a, x, n);
            var g2 := Emit(b, x, g1.next);
            Emit(Seq(a, b), x, n)
            == Emitted(g1.code + g2.code, g2.next, g1.cases + g2.cases, if g2.dflt > 0 then g2.dflt else g1.dflt)
    ensures Legal(Seq(a, b), x.b > 0, x.c > 0, sw)
         == (Legal(a, x.b > 0, x.c > 0, sw) && Legal(b, x.b > 0, x.c > 0, With(sw, CaseValues(a))))
    ensures CaseValues(Seq(a, b)) == CaseValues(a) + CaseValues(b)
  {
  }

  lemma IfMeaning(c: Cond, thn: Stmt, x: Ctx, n: Label, sw: SwitchCtx)
    ensures var g := Emit(thn, x, n + 1);
            Emit(If(c, thn), x, n) ==
            if JumpLabel(thn, x) > 0 then Emitted([IfGoto(c, true, JumpLabel(thn, x))], n, [], 0)
            else g.(code := [IfGoto(c, false, n)] + (g.code + [Lab(n)]))
    ensures Legal(If(c, thn), x.b > 0, x.c > 0, sw) == Legal(thn, x.b > 0, x.c > 0, sw)
    ensures CaseValues(If(c, thn)) == CaseValues(thn)
  {
  }

  lemma ElseMeaning(c: Cond, thn: Stmt, els: Stmt, x: Ctx, n: Label, sw: SwitchCtx)
    ensures var g := Emit(els, x, n); var gt := Emit(thn, x, n + 1); var ge := Emit(els, x, gt.next + 1);
            Emit(IfElse(c, thn, els), x, n) ==
            if JumpLabel(thn, x) > 0 then g.(code := [IfGoto(c, true, JumpLabel(thn, x))] + g.code)
            else Emitted(IfElseCode(c, gt.code, ge.code, n, gt.next), ge.next, gt.cases + ge.cases,
                         if ge.dflt > 0 then ge.dflt else gt.dflt)
    ensures Legal(IfElse(c, thn, els), x.b > 0, x.c > 0, sw) ==
            (Legal(thn, x.b > 0, x.c > 0, sw) && Legal(els, x.b > 0, x.c > 0, With(sw, CaseValues(thn))))
    ensures CaseValues(IfElse(c, thn, els)) == CaseValues(thn) + CaseValues(els)
  {
  }

  /** A statement that is just a jump to a known label is legal and holds no case. */
  lemma JumpMeaning(s: Stmt, x: Ctx, sw: SwitchCtx)
    ensures JumpLabel(s, x) > 0 ==> Legal(s, x.b > 0, x.c > 0, sw) && CaseValues(s) == []
    ensures (s.Break? && x.b == 0) || (s.Continue? && x.c == 0) ==> !Legal(s, x.b > 0, x.c > 0, sw)
  {
  }

  lemma WhileMeaning(c: Cond, body: Stmt, x: Ctx, n: Label, brk: bool, cnt: bool, sw: SwitchCtx)
    ensures var g := Emit(body, Ctx(n, n + 2, x.r), n + 3);
            Emit(While(c, body), x, n) ==
            g.(code := [Goto(n + 2)] + LoopCode(n + 1, g.code, n + 2, None, Tail(Some(c), 0, n + 1), n))
    ensures Legal(While(c, body), brk, cnt, sw) == Legal(body, true, true, sw)
    ensures CaseValues(While(c, body)) == CaseValues(body)
  {
  }

  lemma DoMeaning(body: Stmt, c: Option<Cond>, x: Ctx, n: Label, brk: bool, cnt: bool, sw: SwitchCtx)
    ensures var g := Emit(body, Ctx(n, n + 1, x.r), n + 3);
            Emit(Do(body, c), x, n) == g.(code := LoopCode(n + 2, g.code, n + 1, None, Tail(c, 0, n + 2), n))
    ensures Legal(Do(body, c), brk, cnt, sw) == Legal(body, true, true, sw)
    ensures CaseValues(Do(body, c)) == CaseValues(body)
  {
  }

  lemma ForMeaning(init: Option<Atom>, c: Option<Cond>, step: Option<Atom>, body: Stmt, x: Ctx, n: Label,
        brk: bool, cnt: bool, sw: SwitchCtx)
    ensures var m := if c.Some? then n + 3 else n + 2;
            var g := Emit(body, Ctx(n, n + 1, x.r), m + 1);
            Emit(For(init, c, step, body), x, n) ==
            if c.None? then g.(code := EvalCode(init) + LoopCode(m, g.code, n + 1, step, Tail(None, 0, m), n))
            else g.(code := EvalCode(init) + ([Goto(n + 2)] + LoopCode(m, g.code, n + 1, step, Tail(c, n + 2, m), n)))
    ensures Legal(For(init, c, step, body), brk, cnt, sw) == Legal(body, true, true, sw)
    ensures CaseValues(For(init, c, step, body)) == CaseValues(body)
  {
  }

  lemma SwitchMeaning(a: Atom, body: Stmt, x: Ctx, n: Label, brk: bool, cnt: bool, sw: SwitchCtx)
    ensures var g := Emit(body, Ctx(n, x.c, x.r), n + 2);
            Emit(Switch(a, body), x, n) == Emitted(SwitchCode(a, g, n), g.next, [], 0)
    ensures Legal(Switch(a, body), brk, cnt, sw) == Legal(body, true, cnt, InSwitch(Used(sw), []))
    ensures CaseValues(Switch(a, body)) == []
  {
  }

  lemma CaseMeaning(v: int, s: Stmt, x: Ctx, n: Label, brk: bool, cnt: bool, sw: SwitchCtx)
    ensures var g := Emit(s, x, n + 1);
            Emit(Case(v, s), x, n) == g.(code := [Lab(n)] + g.code, cases := [Entry(Short(v), n)] + g.cases)
    ensures Legal(Case(v, s), brk, cnt, sw) ==
            (sw.InSwitch? && Used(sw) < SWSIZE - 1 && Short(v) !in sw.values && Legal(s, brk, cnt, With(sw, [Short(v)])))
    ensures CaseValues(Case(v, s)) == [Short(v)] + CaseValues(s)
  {
  }

  lemma DefaultMeaning(s: Stmt, x: Ctx, n: Label, brk: bool, cnt: bool, sw: SwitchCtx)
    ensures var g := Emit(s, x, n + 1);
            Emit(Default(s), x, n) == g.(code := [Lab(n)] + g.code, dflt := if g.dflt > 0 then g.dflt else n)
    ensures Legal(Default(s), brk, cnt, sw) == (sw.InSwitch? && Legal(s, brk, cnt, sw))
    ensures CaseValues(Default(s)) == CaseValues(s)
  {
  }
}
