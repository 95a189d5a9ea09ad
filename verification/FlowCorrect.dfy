/** Emitted code does what the statement means. */
module FlowCorrect {
  import opened Machine
  import opened Options
  import opened Flow
  import opened SwitchTable
  import opened FirstPass
  import opened Words

  /** Where each outcome of a statement leaves the machine. */
  function Exit(p: Code, x: Ctx, o: Outcome, end: nat): nat {
    match o
    case Normal => end
    case Broke => Find(p, x.b)
    case Continued => Find(p, x.c)
    case Ended => Find(p, x.r)
  }

  /** The machine, started at s, agrees with the result r: it reaches the place
      of the outcome with the same history, or it outlasts the fuel. */
  ghost predicate Follows(w: World, p: Code, s: Conf, r: Result, x: Ctx, end: nat, fuel: nat) {
    match r
    case None => Lasts(w, p, s, fuel)
    case Some((o, h)) => Reach(w, p, s, Conf(Exit(p, x, o, end), h), 0)
  }

  /** Address of the label a target names. */
  function EntryPc(p: Code, g: Emitted, m: Mode, at: nat): nat {
    match m
    case FromStart => at
    case Seek(ToCase(v)) => Find(p, LastLabel(g.cases, v))
    case Seek(ToDefault) => Find(p, g.dflt)
  }

  lemma Before(w: World, p: Code, s: Conf, t: Conf, k: nat, r: Result, x: Ctx, end: nat, fuel: nat)
    requires Reach(w, p, s, t, k) && Follows(w, p, t, r, x, end, fuel)
    ensures Follows(w, p, s, r, x, end, fuel + k) && Follows(w, p, s, r, x, end, fuel)
  {
    hide Run, Find;
    if r.None? {
      LastsTrans(w, p, s, t, k, fuel);
      LastsLess(w, p, s, k + fuel, fuel);
    } else {
      ReachTrans(w, p, s, t, Conf(Exit(p, x, r.value.0, end), r.value.1), k, 0);
    }
  }

  /** The end may be moved along code that only runs through. */
  lemma Onward(w: World, p: Code, s: Conf, r: Result, x: Ctx, e1: nat, e2: nat, fuel: nat)
    requires Follows(w, p, s, r, x, e1, fuel)
    requires r.Some? && r.value.0 == Normal ==> Reach(w, p, Conf(e1, r.value.1), Conf(e2, r.value.1), 0)
    ensures Follows(w, p, s, r, x, e2, fuel)
  {
    hide Run, Find;
    if r.Some? && r.value.0 == Normal {
      ReachTrans(w, p, s, Conf(e1, r.value.1), Conf(e2, r.value.1), 0, 0);
    }
  }

  lemma EntryTwo(p: Code, a: Stmt, b: Stmt, ga: Emitted, gb: Emitted, g: Emitted, m: Mode, at: nat)
    requires Values(ga.cases) == CaseValues(a) && Values(gb.cases) == CaseValues(b)
    requires gb.dflt > 0 <==> Contains(b, ToDefault)
    requires g.cases == ga.cases + gb.cases && g.dflt == if gb.dflt > 0 then gb.dflt else ga.dflt
    requires m.Seek?
    ensures EntryPc(p, g, m, at) == EntryPc(p, if Contains(b, m.t) then gb else ga, m, at)
  {
    hide Find, Values, LastLabel, Contains, CaseValues;
    if m.t.ToCase? {
      LastLabelConcat(ga.cases, gb.cases, m.t.v);
      CaseValuesContained(b, m.t.v);
    }
  }

  /** The parts of a loop: labels, test, step, body, and the context around. */
  datatype Loop = Loop(top: Label, cont: Label, brk: Label, test: Label, c: Option<Cond>, step: Option<Atom>,
                       body: Stmt, x: Ctx, nb: Label)

  function BodyOf(l: Loop): Emitted { Emit(l.body, Ctx(l.brk, l.cont, l.x.r), l.nb) }

  function CodeOf(l: Loop): Code {
    LoopCode(l.top, BodyOf(l).code, l.cont, l.step, Tail(l.c, l.test, l.top), l.brk)
  }

  function BodyEnd(l: Loop, at: nat): nat { at + 1 + |BodyOf(l).code| }
  function TailAt(l: Loop, at: nat): nat { BodyEnd(l, at) + 1 + |EvalCode(l.step)| }

  lemma LoopSplit(p: Code, at: nat, l: Loop)
    requires Unique(p) && At(p, at, CodeOf(l))
    ensures At(p, at + 1, BodyOf(l).code)
    ensures At(p, BodyEnd(l, at), [Lab(l.cont)] + EvalCode(l.step))
    ensures At(p, TailAt(l, at), Tail(l.c, l.test, l.top))
    ensures var end := at + |CodeOf(l)|;
            end == TailAt(l, at) + |Tail(l.c, l.test, l.top)| + 1 && end <= |p| && p[end - 1] == Lab(l.brk)
            && Find(p, l.brk) == end - 1 && Find(p, l.cont) == BodyEnd(l, at) && Find(p, l.top) == at
            && p[at] == Lab(l.top)
  {
    hide Unique, Emit, Tail, Find, At, EvalCode;
    var tail := Tail(l.c, l.test, l.top);
    LoopPieces(p, at, l);
    AtHead(p, at, [Lab(l.top)]);
    AtHead(p, BodyEnd(l, at), [Lab(l.cont)] + EvalCode(l.step));
    AtHead(p, TailAt(l, at) + |tail|, [Lab(l.brk)]);
    FindUnique(p, at);
    FindUnique(p, BodyEnd(l, at));
    FindUnique(p, TailAt(l, at) + |tail|);
  }

  lemma LoopPieces(p: Code, at: nat, l: Loop)
    requires At(p, at, CodeOf(l))
    ensures At(p, at, [Lab(l.top)]) && At(p, at + 1, BodyOf(l).code)
    ensures At(p, BodyEnd(l, at), [Lab(l.cont)] + EvalCode(l.step))
    ensures At(p, TailAt(l, at), Tail(l.c, l.test, l.top))
    ensures At(p, TailAt(l, at) + |Tail(l.c, l.test, l.top)|, [Lab(l.brk)])
    ensures at + |CodeOf(l)| == TailAt(l, at) + |Tail(l.c, l.test, l.top)| + 1
  {
    hide Emit, Tail, At, EvalCode;
    var body, step, tail := BodyOf(l).code, EvalCode(l.step), Tail(l.c, l.test, l.top);
    var rest := [Lab(l.cont)] + step + (tail + [Lab(l.brk)]);
    AtSplit(p, at, [Lab(l.top)], body + rest);
    AtSplit(p, at + 1, body, rest);
    AtSplit(p, BodyEnd(l, at), [Lab(l.cont)] + step, tail + [Lab(l.brk)]);
    AtSplit(p, TailAt(l, at), tail, [Lab(l.brk)]);
  }

  /** From the continue label through the step to the test. */
  lemma StepRuns(w: World, p: Code, at: nat, l: Loop, h: History)
    requires At(p, BodyEnd(l, at), [Lab(l.cont)] + EvalCode(l.step))
    ensures Reach(w, p, Conf(BodyEnd(l, at), h), Conf(TailAt(l, at), After(h, l.step)), 1)
  {
    hide Emit, Find;
    var eb := BodyEnd(l, at);
    AtHead(p, eb, [Lab(l.cont)] + EvalCode(l.step));
    ReachStep(w, p, Conf(eb, h));
    if l.step.Some? {
      AtSplit(p, eb, [Lab(l.cont)], EvalCode(l.step));
      AtHead(p, eb + 1, EvalCode(l.step));
      ReachStep(w, p, Conf(eb + 1, h));
      ReachTrans(w, p, Conf(eb, h), Conf(eb + 1, h), Conf(eb + 2, After(h, l.step)), 1, 1);
    }
  }

  /** The test at the bottom goes back to the body or past the break label. */
  lemma TailRuns(w: World, p: Code, at: nat, l: Loop, h: History)
    requires Unique(p) && At(p, at, CodeOf(l))
    ensures var (b, h1) := Again(w, l.c, h);
            Reach(w, p, Conf(TailAt(l, at), h), if b then Conf(at + 1, h1) else Conf(at + |CodeOf(l)|, h1), 1)
  {
    hide Unique, Emit, LoopCode, Truth, Run;
    LoopSplit(p, at, l);
    var (b, h1) := Again(w, l.c, h);
    var ta, tail, end := TailAt(l, at), Tail(l.c, l.test, l.top), at + |CodeOf(l)|;
    var ti := ta + |tail| - 1;     // the branch itself, after its label if any
    TailLabel(w, p, ta, l, h);
    hide At, Tail;
    ReachStep(w, p, Conf(at, h1));
    ReachStep(w, p, Conf(end - 1, h1));
    ReachStep(w, p, Conf(ti, h));
    var t := Conf(if b then at else end - 1, h1);
    ReachTrans(w, p, Conf(ta, h), Conf(ti, h), t, 0, 1);
    ReachTrans(w, p, Conf(ta, h), t, if b then Conf(at + 1, h1) else Conf(end, h1), 1, 1);
  }

  /** The label in front of the branch, if there is one, is run through. */
  lemma TailLabel(w: World, p: Code, ta: nat, l: Loop, h: History)
    requires At(p, ta, Tail(l.c, l.test, l.top))
    ensures var tail := Tail(l.c, l.test, l.top);
            var ti := ta + |tail| - 1;
            && |tail| > 0 && ti < |p| && Reach(w, p, Conf(ta, h), Conf(ti, h), 0)
            && p[ti] == if l.c.None? then Goto(l.top) else IfGoto(l.c.value, true, l.top)
  {
    hide Run;
    var tail := Tail(l.c, l.test, l.top);
    var ti := ta + |tail| - 1;
    AtHead(p, ta, tail);
    if ti == ta {
      ReachSelf(w, p, Conf(ta, h));
    } else {
      AtSplit(p, ta, [Lab(l.test)], [IfGoto(l.c.value, true, l.top)]);
      AtHead(p, ti, [IfGoto(l.c.value, true, l.top)]);
      ReachStep(w, p, Conf(ta, h));
      ReachLess(w, p, Conf(ta, h), Conf(ti, h), 1);
    }
  }

  /** What the simulation starts from: code in place, a sensible entry, a legal statement. */
  ghost predicate Ready(p: Code, at: nat, s: Stmt, x: Ctx, n: Label, sw: SwitchCtx, m: Mode) {
    && Unique(p) && At(p, at, Emit(s, x, n).code) && Enters(s, m)
    && n > 0 && x.r > 0 && Legal(s, x.b > 0, x.c > 0, sw)
  }

  /** The code of s, entered as m says, follows the meaning of s. */
  ghost predicate Good(w: World, p: Code, at: nat, s: Stmt, x: Ctx, n: Label, m: Mode, h: History, fuel: nat)
    requires Enters(s, m)
  {
    var g := Emit(s, x, n);
    Follows(w, p, Conf(EntryPc(p, g, m, at), h), Exec(w, s, m, h, fuel), x, at + |g.code|, fuel)
  }

  ghost predicate LoopReady(p: Code, at: nat, l: Loop, sw: SwitchCtx) {
    && Unique(p) && At(p, at, CodeOf(l))
    && l.brk > 0 && l.cont > 0 && l.nb > 0 && l.x.r > 0 && Legal(l.body, true, true, sw)
  }

  lemma {:induction false} SimBody(w: World, p: Code, at: nat, l: Loop, sw: SwitchCtx, m: Mode, h: History, fuel: nat)
    requires LoopReady(p, at, l, sw) && Enters(l.body, m)
    ensures Follows(w, p, Conf(EntryPc(p, BodyOf(l), m, at + 1), h), LoopBody(w, l.c, l.step, l.body, m, h, fuel),
                    l.x, at + |CodeOf(l)|, fuel)
    decreases fuel, l.body, 8
  {
    hide Unique, Emit, LoopCode, Tail, Truth, Find, Run, Legal, Exec, LoopTest;
    LoopSplit(p, at, l);
    var s := Conf(EntryPc(p, BodyOf(l), m, at + 1), h);
    var xb := Ctx(l.brk, l.cont, l.x.r);
    var r := Exec(w, l.body, m, h, fuel);
    Sim(w, p, at + 1, l.body, xb, l.nb, sw, m, h, fuel);
    var end := at + |CodeOf(l)|;
    if r.Some? {
      var (o, h1) := r.value;
      if o == Broke {
        ReachStep(w, p, Conf(end - 1, h1));
        ReachTrans(w, p, s, Conf(end - 1, h1), Conf(end, h1), 0, 1);
      } else if o != Ended {
        var h2 := After(h1, l.step);
        StepRuns(w, p, at, l, h1);
        ReachTrans(w, p, s, Conf(BodyEnd(l, at), h1), Conf(TailAt(l, at), h2), 0, 1);
        SimTest(w, p, at, l, sw, h2, fuel);
        Before(w, p, s, Conf(TailAt(l, at), h2), 1, LoopTest(w, l.c, l.step, l.body, h2, fuel), l.x, end, fuel);
      }
    }
  }

  lemma {:induction false} SimTest(w: World, p: Code, at: nat, l: Loop, sw: SwitchCtx, h: History, fuel: nat)
    requires LoopReady(p, at, l, sw)
    ensures Follows(w, p, Conf(TailAt(l, at), h), LoopTest(w, l.c, l.step, l.body, h, fuel),
                    l.x, at + |CodeOf(l)|, fuel)
    decreases fuel, l.body, 7
  {
    hide Unique, Emit, LoopCode, Tail, Truth, Find, Run, Legal, LoopBody;
    TailRuns(w, p, at, l, h);
    var (b, h1) := Again(w, l.c, h);
    var s := Conf(TailAt(l, at), h);
    if b && fuel > 0 {
      SimBody(w, p, at, l, sw, FromStart, h1, fuel - 1);
      Before(w, p, s, Conf(at + 1, h1), 1, LoopBody(w, l.c, l.step, l.body, FromStart, h1, fuel - 1),
             l.x, at + |CodeOf(l)|, fuel - 1);
    } else if b {
      LastsZero(w, p, s);
    }
  }

  lemma LastsZero(w: World, p: Code, s: Conf)
    ensures Lasts(w, p, s, 0)
  {
  }

  /** Simulation: from its start, or from the label of a target inside it, the
      code of a legal statement follows the meaning of the statement. */
  lemma {:induction false} Sim(w: World, p: Code, at: nat, s: Stmt, x: Ctx, n: Label, sw: SwitchCtx, m: Mode,
        h: History, fuel: nat)
    requires Ready(p, at, s, x, n, sw, m)
    ensures Good(w, p, at, s, x, n, m, h, fuel)
    decreases fuel, s, 5
  {
    hide Unique, Truth, Find, Run, Emit, Exec, Legal, Contains, Follows, At, Good;
    match s
    case Seq(_, _) => SimSeq(w, p, at, s, x, n, sw, m, h, fuel);
    case If(_, _) => SimIf(w, p, at, s, x, n, sw, m, h, fuel);
    case IfElse(_, thn, _) =>
      if JumpLabel(thn, x) > 0 {
        SimEasyElse(w, p, at, s, x, n, sw, m, h, fuel);
      } else {
        SimIfElse(w, p, at, s, x, n, sw, m, h, fuel);
      }
    case While(_, _) => SimWhile(w, p, at, s, x, n, sw, m, h, fuel);
    case Do(_, _) => SimDo(w, p, at, s, x, n, sw, m, h, fuel);
    case For(_, _, _, _) => SimFor(w, p, at, s, x, n, sw, m, h, fuel);
    case Switch(_, _) => SimSwitch(w, p, at, s, x, n, sw, m, h, fuel);
    case Case(_, s1) => SimLabelled(w, p, at, s, s1, x, n, sw, m, h, fuel);
    case Default(s1) => SimLabelled(w, p, at, s, s1, x, n, sw, m, h, fuel);
    case _ => SimSimple(w, p, at, s, x, n, sw, m, h, fuel);
  }

  lemma SimSimple(w: World, p: Code, at: nat, s: Stmt, x: Ctx, n: Label, sw: SwitchCtx, m: Mode, h: History, fuel: nat)
    requires s.Null? || s.Expr? || s.Break? || s.Continue? || s.Return?
    requires Ready(p, at, s, x, n, sw, m)
    ensures Good(w, p, at, s, x, n, m, h, fuel)
  {
    hide Unique, Find;
    var code := Emit(s, x, n).code;
    var t := Conf(at, h);
    ReachSelf(w, p, t);
    if code != [] {
      AtHead(p, at, code);
      ReachStep(w, p, t);
    }
    if s.Return? && s.value.Some? {
      AtSplit(p, at, ReturnCode(s.value), GotoCode(x.r));
      AtHead(p, at + 1, GotoCode(x.r));
      var h1 := h + [Returned(s.value.value)];
      ReachStep(w, p, Conf(at + 1, h1));
      ReachTrans(w, p, t, Conf(at + 1, h1), Conf(Find(p, x.r), h1), 1, 1);
    }
  }

  lemma {:induction false} SimSeq(w: World, p: Code, at: nat, s: Stmt, x: Ctx, n: Label, sw: SwitchCtx,
        m: Mode, h: History, fuel: nat)
    requires s.Seq? && Ready(p, at, s, x, n, sw, m)
    ensures Good(w, p, at, s, x, n, m, h, fuel)
    decreases fuel, s, 4
  {
    hide Unique, Truth, Find, Run, At, Reach, Lasts, Emit, Exec, Legal, EntryPc;
    var a, b := s.first, s.second;
    var g := Emit(s, x, n);
    var ga := Emit(a, x, n);
    var mid, end := at + |ga.code|, at + |g.code|;
    var sw1 := With(sw, CaseValues(a));
    SeqPieces(p, at, s, x, n, sw, m);
    ExecSeq(w, s, m, h, fuel);
    if m.Seek? && Contains(b, m.t) {
      Sim(w, p, mid, b, x, ga.next, sw1, m, h, fuel);
    } else {
      var r := Exec(w, a, m, h, fuel);
      Sim(w, p, at, a, x, n, sw, m, h, fuel);
      if r.Some? && r.value.0 == Normal {
        var t := Conf(mid, r.value.1);
        Sim(w, p, mid, b, x, ga.next, sw1, FromStart, r.value.1, fuel);
        EntryStart(p, Emit(b, x, ga.next), mid);
        Before(w, p, Conf(EntryPc(p, g, m, at), h), t, 0, Exec(w, b, FromStart, r.value.1, fuel), x, end, fuel);
      }
    }
  }

  /** Two statements, one behind the other. */
  lemma SeqPieces(p: Code, at: nat, s: Stmt, x: Ctx, n: Label, sw: SwitchCtx, m: Mode)
    requires s.Seq? && Ready(p, at, s, x, n, sw, m)
    ensures var ga := Emit(s.first, x, n);
            var gb := Emit(s.second, x, ga.next);
            && At(p, at, ga.code) && At(p, at + |ga.code|, gb.code) && |Emit(s, x, n).code| == |ga.code| + |gb.code|
            && ga.next > 0 && Legal(s.first, x.b > 0, x.c > 0, sw)
            && Legal(s.second, x.b > 0, x.c > 0, With(sw, CaseValues(s.first)))
            && (m.Seek? ==> Contains(s.first, m.t) || Contains(s.second, m.t))
            && EntryPc(p, Emit(s, x, n), m, at)
               == if m.Seek? && Contains(s.second, m.t) then EntryPc(p, gb, m, at + |ga.code|) else EntryPc(p, ga, m, at)
  {
    SeqMeaning(s.first, s.second, x, n, sw);
    SeqTarget(s, m);
    hide Unique, Find, At, Emit, Legal, CaseValues, Contains, With;
    var ga := Emit(s.first, x, n);
    var gb := Emit(s.second, x, ga.next);
    AtSplit(p, at, ga.code, gb.code);
    SeqEntry(p, at, s, x, n, sw, m);
  }

  lemma SeqTarget(s: Stmt, m: Mode)
    requires s.Seq? && Enters(s, m)
    ensures m.Seek? ==> Contains(s.first, m.t) || Contains(s.second, m.t)
  {
  }

  lemma SeqEntry(p: Code, at: nat, s: Stmt, x: Ctx, n: Label, sw: SwitchCtx, m: Mode)
    requires s.Seq? && n > 0
    ensures var ga := Emit(s.first, x, n);
            var gb := Emit(s.second, x, ga.next);
            m.Seek? ==>
              EntryPc(p, Emit(s, x, n), m, at)
              == if Contains(s.second, m.t) then EntryPc(p, gb, m, at + |ga.code|) else EntryPc(p, ga, m, at)
    ensures Emit(s.first, x, n).next >= n
  {
    SeqMeaning(s.first, s.second, x, n, sw);
    hide Find, Emit, Legal, CaseValues, EntryPc, Contains;
    var ga := Emit(s.first, x, n);
    var gb := Emit(s.second, x, ga.next);
    EmitCases(s.first, x, n);
    EmitCases(s.second, x, ga.next);
    EmitLabels(s.first, x, n);
    if m.Seek? {
      EntryTwo(p, s.first, s.second, ga, gb, Emit(s, x, n), m, at);
      EntrySeek(p, gb, m, at, at + |ga.code|);
    }
  }

  lemma EntrySeek(p: Code, g: Emitted, m: Mode, at: nat, at2: nat)
    requires m.Seek?
    ensures EntryPc(p, g, m, at) == EntryPc(p, g, m, at2)
  {
    hide Find;
  }

  lemma ExecSeq(w: World, s: Stmt, m: Mode, h: History, fuel: nat)
    requires s.Seq? && Enters(s, m)
    ensures Exec(w, s, m, h, fuel) ==
            if m.Seek? && Contains(s.second, m.t) then Exec(w, s.second, m, h, fuel)
            else
              var r := Exec(w, s.first, m, h, fuel);
              if r.None? || r.value.0 != Normal then r else Exec(w, s.second, FromStart, r.value.1, fuel)
  {
  }

  /** A statement that is just a jump leaves where its jump label stands. */
  lemma JumpExit(w: World, p: Code, s: Stmt, x: Ctx, h: History, fuel: nat, end: nat)
    requires JumpLabel(s, x) > 0
    ensures Exec(w, s, FromStart, h, fuel).Some?
    ensures Exec(w, s, FromStart, h, fuel).value.1 == h
    ensures Exit(p, x, Exec(w, s, FromStart, h, fuel).value.0, end) == Find(p, JumpLabel(s, x))
    ensures forall t :: !Contains(s, t)
    ensures CaseValues(s) == []
  {
    hide Find;
  }

  lemma {:induction false} SimIf(w: World, p: Code, at: nat, s: Stmt, x: Ctx, n: Label, sw: SwitchCtx, m: Mode,
        h: History, fuel: nat)
    requires s.If? && Ready(p, at, s, x, n, sw, m)
    ensures Good(w, p, at, s, x, n, m, h, fuel)
    decreases fuel, s, 4
  {
    if JumpLabel(s.thn, x) > 0 {
      SimEasyIf(w, p, at, s, x, n, sw, m, h, fuel);
    } else {
      SimHardIf(w, p, at, s, x, n, sw, m, h, fuel);
    }
  }

  lemma SimEasyIf(w: World, p: Code, at: nat, s: Stmt, x: Ctx, n: Label, sw: SwitchCtx, m: Mode, h: History, fuel: nat)
    requires s.If? && JumpLabel(s.thn, x) > 0 && Ready(p, at, s, x, n, sw, m)
    ensures Good(w, p, at, s, x, n, m, h, fuel)
  {
    hide Unique, Truth, Find, Run, Reach, Lasts;
    var (b, h1) := Truth(w, s.test, h);
    assert m.Seek? ==> Contains(s.thn, m.t);
    AtHead(p, at, Emit(s, x, n).code);
    ReachStep(w, p, Conf(at, h));
    JumpExit(w, p, s.thn, x, h1, fuel, at + 1);
    ReachLess(w, p, Conf(at, h), Step(w, p, Conf(at, h)), 1);
  }

  lemma ExecIf(w: World, s: Stmt, m: Mode, h: History, fuel: nat)
    requires s.If? && Enters(s, m)
    ensures var (b, h1) := Truth(w, s.test, h);
            Enters(s.thn, m) && Exec(w, s, m, h, fuel) ==
            if m.FromStart? && !b then Some((Normal, h1)) else Exec(w, s.thn, m, if m.Seek? then h else h1, fuel)
  {
    hide Truth;
  }

  lemma {:induction false} SimHardIf(w: World, p: Code, at: nat, s: Stmt, x: Ctx, n: Label, sw: SwitchCtx,
        m: Mode, h: History, fuel: nat)
    requires s.If? && JumpLabel(s.thn, x) == 0 && Ready(p, at, s, x, n, sw, m)
    ensures Good(w, p, at, s, x, n, m, h, fuel)
    decreases fuel, s, 3
  {
    hide Unique, Truth, Find, Run, Reach, Lasts, At, Exec;
    var g, gt := Emit(s, x, n), Emit(s.thn, x, n + 1);
    var (b, h1) := Truth(w, s.test, h);
    var l := at + 1 + |gt.code|;
    AtSplit(p, at, [IfGoto(s.test, false, n)], gt.code + [Lab(n)]);
    AtHead(p, at, [IfGoto(s.test, false, n)]);
    AtSplit(p, at + 1, gt.code, [Lab(n)]);
    AtHead(p, l, [Lab(n)]);
    FindUnique(p, l);
    ExecIf(w, s, m, h, fuel);
    ReachStep(w, p, Conf(at, h));
    if m.FromStart? && !b {
      ReachStep(w, p, Conf(l, h1));
      ReachTrans(w, p, Conf(at, h), Conf(l, h1), Conf(l + 1, h1), 1, 1);
      ReachLess(w, p, Conf(at, h), Conf(l + 1, h1), 2);
    } else {
      var h2 := if m.Seek? then h else h1;
      var s1 := Conf(EntryPc(p, gt, m, at + 1), h2);
      var r := Exec(w, s.thn, m, h2, fuel);
      Sim(w, p, at + 1, s.thn, x, n + 1, sw, m, h2, fuel);
      PastLabel(w, p, s1, r, x, l, fuel);
      if m.FromStart? {
        Before(w, p, Conf(at, h), s1, 1, r, x, l + 1, fuel);
      }
    }
  }

  lemma ReachLess(w: World, p: Code, s: Conf, t: Conf, k: nat)
    requires Reach(w, p, s, t, k)
    ensures Reach(w, p, s, t, 0)
  {
    hide Run;
  }

  /** A label standing at the end is run through. */
  lemma PastLabel(w: World, p: Code, s: Conf, r: Result, x: Ctx, end: nat, fuel: nat)
    requires end < |p| && p[end].Lab?
    requires Follows(w, p, s, r, x, end, fuel)
    ensures Follows(w, p, s, r, x, end + 1, fuel)
  {
    hide Run, Find;
    if r.Some? && r.value.0 == Normal {
      ReachStep(w, p, Conf(end, r.value.1));
      Onward(w, p, s, r, x, end, end + 1, fuel);
    }
  }

  lemma EasyParts(p: Code, at: nat, s: Stmt, x: Ctx, n: Label, sw: SwitchCtx, m: Mode)
    requires s.IfElse? && JumpLabel(s.thn, x) > 0 && Ready(p, at, s, x, n, sw, m)
    ensures var g, ge := Emit(s, x, n), Emit(s.els, x, n);
            && at < |p| && p[at] == IfGoto(s.test, true, JumpLabel(s.thn, x)) && |g.code| == |ge.code| + 1
            && (m.Seek? ==> Ready(p, at + 1, s.els, x, n, With(sw, CaseValues(s.thn)), m))
            && Ready(p, at + 1, s.els, x, n, With(sw, CaseValues(s.thn)), FromStart)
            && (m.Seek? ==> EntryPc(p, g, m, at) == EntryPc(p, ge, m, at + 1))
    ensures forall t :: !Contains(s.thn, t)
  {
    ElseMeaning(s.test, s.thn, s.els, x, n, sw);
    JumpMeaning(s.thn, x, sw);
    NoTarget(s.thn, x);
    if m.Seek? {
      assert !Contains(s.thn, m.t);
    }
    hide Unique, Find, Emit, Legal, CaseValues, At;
    AtSplit(p, at, [IfGoto(s.test, true, JumpLabel(s.thn, x))], Emit(s.els, x, n).code);
    AtHead(p, at, [IfGoto(s.test, true, JumpLabel(s.thn, x))]);
  }

  lemma NoTarget(s: Stmt, x: Ctx)
    requires JumpLabel(s, x) > 0
    ensures forall t :: !Contains(s, t)
  {
  }

  lemma {:induction false} SimEasyElse(w: World, p: Code, at: nat, s: Stmt, x: Ctx, n: Label, sw: SwitchCtx,
        m: Mode, h: History, fuel: nat)
    requires s.IfElse? && JumpLabel(s.thn, x) > 0 && Ready(p, at, s, x, n, sw, m)
    ensures Good(w, p, at, s, x, n, m, h, fuel)
    decreases fuel, s, 4
  {
    EasyParts(p, at, s, x, n, sw, m);
    ExecIfElse(w, s, m, h, fuel);
    hide Unique, Truth, Find, Run, Reach, Lasts, Emit, Legal, CaseValues, Contains, Exec, At;
    if m.Seek? {
      Sim(w, p, at + 1, s.els, x, n, With(sw, CaseValues(s.thn)), m, h, fuel);
    } else {
      SimEasyStart(w, p, at, s, x, n, sw, h, fuel);
    }
  }

  lemma {:induction false} SimEasyStart(w: World, p: Code, at: nat, s: Stmt, x: Ctx, n: Label, sw: SwitchCtx,
        h: History, fuel: nat)
    requires s.IfElse? && JumpLabel(s.thn, x) > 0 && Ready(p, at, s, x, n, sw, FromStart)
    ensures Good(w, p, at, s, x, n, FromStart, h, fuel)
    decreases fuel, s, 3
  {
    EasyParts(p, at, s, x, n, sw, FromStart);
    ExecIfElse(w, s, FromStart, h, fuel);
    hide Unique, Truth, Find, Run, Reach, Lasts, Emit, Legal, CaseValues, Contains, Exec, At, Ready;
    var (b, h1) := Truth(w, s.test, h);
    var end := at + |Emit(s, x, n).code|;
    ReachStep(w, p, Conf(at, h));
    if b {
      JumpExit(w, p, s.thn, x, h1, fuel, end);
      ReachLess(w, p, Conf(at, h), Step(w, p, Conf(at, h)), 1);
    } else {
      Sim(w, p, at + 1, s.els, x, n, With(sw, CaseValues(s.thn)), FromStart, h1, fuel);
      Before(w, p, Conf(at, h), Conf(at + 1, h1), 1, Exec(w, s.els, FromStart, h1, fuel), x, end, fuel);
    }
  }

  predicate ToElse(s: Stmt, m: Mode, b: bool)
    requires s.IfElse?
  {
    if m.Seek? then Contains(s.els, m.t) else !b
  }

  lemma ExecIfElse(w: World, s: Stmt, m: Mode, h: History, fuel: nat)
    requires s.IfElse? && Enters(s, m)
    ensures var (b, h1) := Truth(w, s.test, h);
            var part := if ToElse(s, m, b) then s.els else s.thn;
            Enters(part, m) && Exec(w, s, m, h, fuel) == Exec(w, part, m, if m.Seek? then h else h1, fuel)
  {
    hide Truth;
  }

  lemma EmitIfElse(s: Stmt, x: Ctx, n: Label)
    requires s.IfElse? && JumpLabel(s.thn, x) == 0
    ensures var gt := Emit(s.thn, x, n + 1); var ge := Emit(s.els, x, gt.next + 1);
            Emit(s, x, n) == Emitted(IfElseCode(s.test, gt.code, ge.code, n, gt.next), ge.next, gt.cases + ge.cases,
                                     if ge.dflt > 0 then ge.dflt else gt.dflt)
  {
    hide IfElseCode;
  }

  /** Where the two sides of a conditional stand. */
  lemma IfElseParts(p: Code, at: nat, s: Stmt, x: Ctx, n: Label, sw: SwitchCtx, m: Mode)
    requires s.IfElse? && JumpLabel(s.thn, x) == 0 && Ready(p, at, s, x, n, sw, m)
    ensures var gt := Emit(s.thn, x, n + 1); var ge := Emit(s.els, x, gt.next + 1); var g := Emit(s, x, n);
            var m1, m2 := at + 1 + |gt.code|, at + 3 + |gt.code| + |ge.code|;
            && m2 < |p| && p[at] == IfGoto(s.test, false, n) && p[m1] == Goto(gt.next) && p[m1 + 1] == Lab(n)
            && p[m2] == Lab(gt.next) && Find(p, n) == m1 + 1 && Find(p, gt.next) == m2 && m2 + 1 == at + |g.code|
            && At(p, at + 1, gt.code) && At(p, m1 + 2, ge.code)
    ensures Enters(s, m)
  {
    hide Unique, Find, At, IfElseCode, Emit;
    var gt := Emit(s.thn, x, n + 1);
    EmitIfElse(s, x, n);
    IfElseSplit(p, at, s.test, gt.code, Emit(s.els, x, gt.next + 1).code, n, gt.next);
  }

  /** How they are entered. */
  lemma IfElseEntry(p: Code, at: nat, s: Stmt, x: Ctx, n: Label, sw: SwitchCtx, m: Mode, b: bool)
    requires s.IfElse? && JumpLabel(s.thn, x) == 0 && Ready(p, at, s, x, n, sw, m)
    ensures var gt := Emit(s.thn, x, n + 1); var ge := Emit(s.els, x, gt.next + 1); var g := Emit(s, x, n);
            var m1 := at + 1 + |gt.code|;
            && EntryPc(p, g, FromStart, at) == at && EntryPc(p, ge, FromStart, m1 + 2) == m1 + 2
            && EntryPc(p, gt, FromStart, at + 1) == at + 1
            && (ToElse(s, m, b) && m.Seek? ==> EntryPc(p, g, m, at) == EntryPc(p, ge, m, m1 + 2))
            && (!ToElse(s, m, b) && m.Seek? ==> EntryPc(p, g, m, at) == EntryPc(p, gt, m, at + 1))
    ensures if ToElse(s, m, b) then Legal(s.els, x.b > 0, x.c > 0, With(sw, CaseValues(s.thn))) && Enters(s.els, m)
            else Legal(s.thn, x.b > 0, x.c > 0, sw) && Enters(s.thn, m)
  {
    hide Unique, Find, At, IfElseCode, Emit, Values;
    var gt := Emit(s.thn, x, n + 1);
    var ge := Emit(s.els, x, gt.next + 1);
    EmitIfElse(s, x, n);
    EmitCases(s.thn, x, n + 1);
    EmitCases(s.els, x, gt.next + 1);
    if m.Seek? {
      EntryTwo(p, s.thn, s.els, gt, ge, Emit(s, x, n), m, at);
    }
  }

  lemma {:induction false} SimIfElse(w: World, p: Code, at: nat, s: Stmt, x: Ctx, n: Label, sw: SwitchCtx,
        m: Mode, h: History, fuel: nat)
    requires s.IfElse? && JumpLabel(s.thn, x) == 0 && Ready(p, at, s, x, n, sw, m)
    ensures Good(w, p, at, s, x, n, m, h, fuel)
    decreases fuel, s, 4
  {
    hide Unique, Truth, Find, Run, Reach, Lasts, Emit, Exec, ToElse, EntryPc, At, Legal, Contains;
    var (b, h1) := Truth(w, s.test, h);
    var gt := Emit(s.thn, x, n + 1);
    var ge := Emit(s.els, x, gt.next + 1);
    IfElseParts(p, at, s, x, n, sw, m);
    IfElseEntry(p, at, s, x, n, sw, m, b);
    ExecIfElse(w, s, m, h, fuel);
    if ToElse(s, m, b) {
      Sim(w, p, at + 3 + |gt.code|, s.els, x, gt.next + 1, With(sw, CaseValues(s.thn)), m, if m.Seek? then h else h1, fuel);
      ElseSide(w, p, at, s, x, n, sw, m, h, fuel);
    } else {
      Sim(w, p, at + 1, s.thn, x, n + 1, sw, m, if m.Seek? then h else h1, fuel);
      ThenSide(w, p, at, s, x, n, sw, m, h, fuel);
    }
  }

  lemma ElseSide(w: World, p: Code, at: nat, s: Stmt, x: Ctx, n: Label, sw: SwitchCtx, m: Mode, h: History, fuel: nat)
    requires s.IfElse? && JumpLabel(s.thn, x) == 0 && Ready(p, at, s, x, n, sw, m)
    requires var (b, h1) := Truth(w, s.test, h); var gt := Emit(s.thn, x, n + 1);
             ToElse(s, m, b) && Enters(s.els, m) &&
             Good(w, p, at + 3 + |gt.code|, s.els, x, gt.next + 1, m, if m.Seek? then h else h1, fuel)
    ensures Good(w, p, at, s, x, n, m, h, fuel)
  {
    hide Unique, Truth, Find, Run, Reach, Lasts, Emit, Exec, Ready, EntryPc, At, Contains, Follows;
    var (b, h1) := Truth(w, s.test, h);
    var gt := Emit(s.thn, x, n + 1);
    var ge := Emit(s.els, x, gt.next + 1);
    var m1, m2 := at + 1 + |gt.code|, at + 3 + |gt.code| + |ge.code|;
    IfElseParts(p, at, s, x, n, sw, m);
    IfElseEntry(p, at, s, x, n, sw, m, b);
    ExecIfElse(w, s, m, h, fuel);
    var h2 := if m.Seek? then h else h1;
    var r := Exec(w, s.els, m, h2, fuel);
    PastLabel(w, p, Conf(EntryPc(p, ge, m, m1 + 2), h2), r, x, m2, fuel);
    if m.FromStart? {
      ReachStep(w, p, Conf(at, h));
      ReachStep(w, p, Conf(m1 + 1, h1));
      ReachTrans(w, p, Conf(at, h), Conf(m1 + 1, h1), Conf(m1 + 2, h1), 1, 1);
      Before(w, p, Conf(at, h), Conf(m1 + 2, h1), 2, r, x, m2 + 1, fuel);
    }
  }

  lemma ThenSide(w: World, p: Code, at: nat, s: Stmt, x: Ctx, n: Label, sw: SwitchCtx, m: Mode, h: History, fuel: nat)
    requires s.IfElse? && JumpLabel(s.thn, x) == 0 && Ready(p, at, s, x, n, sw, m)
    requires var (b, h1) := Truth(w, s.test, h);
             !ToElse(s, m, b) && Enters(s.thn, m) &&
             Good(w, p, at + 1, s.thn, x, n + 1, m, if m.Seek? then h else h1, fuel)
    ensures Good(w, p, at, s, x, n, m, h, fuel)
  {
    hide Unique, Truth, Find, Run, Reach, Lasts, Emit, Exec, Ready, EntryPc, At, Contains, Follows;
    var (b, h1) := Truth(w, s.test, h);
    var gt := Emit(s.thn, x, n + 1);
    var ge := Emit(s.els, x, gt.next + 1);
    var m1, m2 := at + 1 + |gt.code|, at + 3 + |gt.code| + |ge.code|;
    IfElseParts(p, at, s, x, n, sw, m);
    IfElseEntry(p, at, s, x, n, sw, m, b);
    ExecIfElse(w, s, m, h, fuel);
    var h2 := if m.Seek? then h else h1;
    var r := Exec(w, s.thn, m, h2, fuel);
    var s1 := Conf(EntryPc(p, gt, m, at + 1), h2);
    if r.Some? && r.value.0 == Normal {
      ReachStep(w, p, Conf(m1, r.value.1));
      ReachLess(w, p, Conf(m1, r.value.1), Conf(m2, r.value.1), 1);
    }
    Onward(w, p, s1, r, x, m1, m2, fuel);
    PastLabel(w, p, s1, r, x, m2, fuel);
    if m.FromStart? {
      ReachStep(w, p, Conf(at, h));
      Before(w, p, Conf(at, h), s1, 1, r, x, m2 + 1, fuel);
    }
  }

  lemma IfElseSplit(p: Code, at: nat, c: Cond, thn: Code, els: Code, elselab: Label, exitlab: Label)
    requires Unique(p) && At(p, at, IfElseCode(c, thn, els, elselab, exitlab))
    ensures var m1, m2 := at + 1 + |thn|, at + 3 + |thn| + |els|;
            && m2 < |p| && p[at] == IfGoto(c, false, elselab) && At(p, at + 1, thn)
            && p[m1] == Goto(exitlab) && p[m1 + 1] == Lab(elselab) && At(p, m1 + 2, els) && p[m2] == Lab(exitlab)
            && Find(p, elselab) == m1 + 1 && Find(p, exitlab) == m2
            && m2 + 1 == at + |IfElseCode(c, thn, els, elselab, exitlab)|
  {
    hide Unique, Find, At;
    var m1, m2 := at + 1 + |thn|, at + 3 + |thn| + |els|;
    var mid := [Goto(exitlab), Lab(elselab)];
    AtSplit(p, at, [IfGoto(c, false, elselab)], thn + (mid + (els + [Lab(exitlab)])));
    AtHead(p, at, [IfGoto(c, false, elselab)]);
    AtSplit(p, at + 1, thn, mid + (els + [Lab(exitlab)]));
    AtSplit(p, m1, mid, els + [Lab(exitlab)]);
    AtHead(p, m1, mid);
    assert mid == [Goto(exitlab)] + [Lab(elselab)];
    AtSplit(p, m1, [Goto(exitlab)], [Lab(elselab)]);
    AtHead(p, m1 + 1, [Lab(elselab)]);
    AtSplit(p, m1 + 2, els, [Lab(exitlab)]);
    AtHead(p, m2, [Lab(exitlab)]);
    FindUnique(p, m1 + 1);
    FindUnique(p, m2);
  }

  /** A while loop as the generic one. */
  function WhileLoop(s: Stmt, x: Ctx, n: Label): Loop
    requires s.While?
  {
    Loop(n + 1, n + 2, n, 0, Some(s.test), None, s.body, x, n + 3)
  }

  lemma WhileParts(p: Code, at: nat, s: Stmt, x: Ctx, n: Label, sw: SwitchCtx, m: Mode)
    requires s.While? && Ready(p, at, s, x, n, sw, m)
    ensures var l := WhileLoop(s, x, n);
            && at < |p| && p[at] == Goto(n + 2) && LoopReady(p, at + 1, l, sw)
            && |Emit(s, x, n).code| == 1 + |CodeOf(l)|
            && (m.Seek? ==> EntryPc(p, Emit(s, x, n), m, at) == EntryPc(p, BodyOf(l), m, at + 1))
    ensures Enters(s.body, m) || m.FromStart?
  {
    WhileMeaning(s.test, s.body, x, n, x.b > 0, x.c > 0, sw);
    var l := WhileLoop(s, x, n);
    hide Unique, Find, LoopCode, Tail, Emit, Legal, CaseValues, At;
    AtSplit(p, at, [Goto(n + 2)], CodeOf(l));
    AtHead(p, at, [Goto(n + 2)]);
  }

  lemma {:induction false} SimWhile(w: World, p: Code, at: nat, s: Stmt, x: Ctx, n: Label, sw: SwitchCtx,
        m: Mode, h: History, fuel: nat)
    requires s.While? && Ready(p, at, s, x, n, sw, m)
    ensures Good(w, p, at, s, x, n, m, h, fuel)
    decreases fuel, s, 4
  {
    WhileParts(p, at, s, x, n, sw, m);
    ExecWhile(w, s, m, h, fuel);
    hide Unique, Truth, Find, Run, Reach, Lasts, LoopBody, LoopTest, LoopCode, Tail, Emit, Legal, CaseValues, At, Exec,
         Contains, Ready, TailAt;
    var l := WhileLoop(s, x, n);
    if m.Seek? {
      SimBody(w, p, at + 1, l, sw, m, h, fuel);
    } else {
      SimWhileStart(w, p, at, s, x, n, sw, h, fuel);
    }
  }

  lemma {:induction false} SimWhileStart(w: World, p: Code, at: nat, s: Stmt, x: Ctx, n: Label, sw: SwitchCtx,
        h: History, fuel: nat)
    requires s.While? && Ready(p, at, s, x, n, sw, FromStart)
    ensures Good(w, p, at, s, x, n, FromStart, h, fuel)
    decreases fuel, s, 3
  {
    WhileParts(p, at, s, x, n, sw, FromStart);
    ExecWhile(w, s, FromStart, h, fuel);
    hide Unique, Truth, Find, Run, Reach, Lasts, LoopBody, LoopTest, LoopCode, Tail, Emit, Legal, CaseValues, At, Exec,
         Contains, Ready, TailAt;
    var l, end := WhileLoop(s, x, n), at + |Emit(s, x, n).code|;
    WhileEnters(w, p, at, l, sw, h);
    SimTest(w, p, at + 1, l, sw, h, fuel);
    Before(w, p, Conf(at, h), Conf(TailAt(l, at + 1), h), 2, LoopTest(w, l.c, l.step, l.body, h, fuel), x, end, fuel);
  }

  lemma ExecWhile(w: World, s: Stmt, m: Mode, h: History, fuel: nat)
    requires s.While? && Enters(s, m)
    ensures m.Seek? ==> Enters(s.body, m) && Exec(w, s, m, h, fuel) == LoopBody(w, Some(s.test), None, s.body, m, h, fuel)
    ensures m.FromStart? ==> Exec(w, s, m, h, fuel) == LoopTest(w, Some(s.test), None, s.body, h, fuel)
  {
    hide LoopBody, LoopTest;
  }

  /** A while loop is entered at its test, over the continue label. */
  lemma WhileEnters(w: World, p: Code, at: nat, l: Loop, sw: SwitchCtx, h: History)
    requires LoopReady(p, at + 1, l, sw) && at < |p| && p[at] == Goto(l.cont) && l.step.None?
    ensures Reach(w, p, Conf(at, h), Conf(TailAt(l, at + 1), h), 2)
  {
    hide Unique, Find, Run, LoopCode, Tail, Emit, Legal, CaseValues, At;
    LoopSplit(p, at + 1, l);
    ReachStep(w, p, Conf(at, h));
    StepRuns(w, p, at + 1, l, h);
    ReachTrans(w, p, Conf(at, h), Conf(BodyEnd(l, at + 1), h), Conf(TailAt(l, at + 1), h), 1, 1);
  }

  lemma {:induction false} SimDo(w: World, p: Code, at: nat, s: Stmt, x: Ctx, n: Label, sw: SwitchCtx, m: Mode,
        h: History, fuel: nat)
    requires s.Do? && Ready(p, at, s, x, n, sw, m)
    ensures Good(w, p, at, s, x, n, m, h, fuel)
    decreases fuel, s, 4
  {
    hide Unique, Truth, Find, Run, Reach, Lasts, LoopBody, LoopCode, Tail;
    var l := Loop(n + 2, n + 1, n, 0, s.until, None, s.body, x, n + 3);
    SimBody(w, p, at, l, sw, m, h, fuel);
    if m.FromStart? {
      LoopSplit(p, at, l);
      ReachStep(w, p, Conf(at, h));
      Before(w, p, Conf(at, h), Conf(at + 1, h), 1, LoopBody(w, l.c, l.step, l.body, m, h, fuel), x, at + |CodeOf(l)|, fuel);
    }
  }

  lemma InitRuns(w: World, p: Code, at: nat, e: Option<Atom>, h: History)
    requires At(p, at, EvalCode(e))
    ensures Reach(w, p, Conf(at, h), Conf(at + |EvalCode(e)|, After(h, e)), 0)
  {
    ReachSelf(w, p, Conf(at, h));
    if e.Some? {
      AtHead(p, at, EvalCode(e));
      ReachStep(w, p, Conf(at, h));
    }
  }

  lemma {:induction false} SimFor(w: World, p: Code, at: nat, s: Stmt, x: Ctx, n: Label, sw: SwitchCtx,
        m: Mode, h: History, fuel: nat)
    requires s.For? && Ready(p, at, s, x, n, sw, m)
    ensures Good(w, p, at, s, x, n, m, h, fuel)
    decreases fuel, s, 4
  {
    if s.cond.None? {
      SimForEver(w, p, at, s, x, n, sw, m, h, fuel);
    } else {
      SimForCond(w, p, at, s, x, n, sw, m, h, fuel);
    }
  }

  lemma LoopForEver(w: World, step: Option<Atom>, body: Stmt, h: History, fuel: nat)
    ensures LoopTest(w, None, step, body, h, fuel) ==
            if fuel == 0 then None else LoopBody(w, None, step, body, FromStart, h, fuel - 1)
  {
    hide LoopBody;
  }

  lemma {:induction false} SimForEver(w: World, p: Code, at: nat, s: Stmt, x: Ctx, n: Label, sw: SwitchCtx,
        m: Mode, h: History, fuel: nat)
    requires s.For? && s.cond.None? && Ready(p, at, s, x, n, sw, m)
    ensures Good(w, p, at, s, x, n, m, h, fuel)
    decreases fuel, s, 3
  {
    hide Unique, Truth, Find, Run, Reach, LoopBody, LoopTest, LoopCode, Tail, Lasts, At, Legal, EvalCode;
    var l := Loop(n + 2, n + 1, n, 0, None, s.step, s.body, x, n + 3);
    var la := at + |EvalCode(s.init)|;
    AtSplit(p, at, EvalCode(s.init), CodeOf(l));
    ForReady(p, la, l, s, x, sw);
    if m.Seek? {
      SimBody(w, p, la, l, sw, m, h, fuel);
    } else {
      var h1 := After(h, s.init);
      LoopSplit(p, la, l);
      InitRuns(w, p, at, s.init, h);
      ReachStep(w, p, Conf(la, h1));
      ReachTrans(w, p, Conf(at, h), Conf(la, h1), Conf(la + 1, h1), 0, 1);
      LoopForEver(w, s.step, s.body, h1, fuel);
      if fuel == 0 {
        LastsZero(w, p, Conf(at, h));
      } else {
        SimBody(w, p, la, l, sw, FromStart, h1, fuel - 1);
        Before(w, p, Conf(at, h), Conf(la + 1, h1), 1, LoopBody(w, None, s.step, s.body, FromStart, h1, fuel - 1),
               x, la + |CodeOf(l)|, fuel - 1);
      }
    }
  }

  lemma {:induction false} SimForCond(w: World, p: Code, at: nat, s: Stmt, x: Ctx, n: Label, sw: SwitchCtx,
        m: Mode, h: History, fuel: nat)
    requires s.For? && s.cond.Some? && Ready(p, at, s, x, n, sw, m)
    ensures Good(w, p, at, s, x, n, m, h, fuel)
    decreases fuel, s, 3
  {
    hide Unique, Truth, Find, Run, Reach, LoopBody, LoopTest, LoopCode, Lasts, At, Legal, EvalCode;
    var l := Loop(n + 3, n + 1, n, n + 2, s.cond, s.step, s.body, x, n + 4);
    var ga := at + |EvalCode(s.init)|;
    AtSplit(p, at, EvalCode(s.init), [Goto(n + 2)] + CodeOf(l));
    AtSplit(p, ga, [Goto(n + 2)], CodeOf(l));
    ForReady(p, ga + 1, l, s, x, sw);
    if m.Seek? {
      SimBody(w, p, ga + 1, l, sw, m, h, fuel);
    } else {
      var h1 := After(h, s.init);
      var t := Conf(TailAt(l, ga + 1), h1);
      InitRuns(w, p, at, s.init, h);
      ToTest(w, p, ga, l, h1);
      ReachTrans(w, p, Conf(at, h), Conf(ga, h1), t, 0, 1);
      SimTest(w, p, ga + 1, l, sw, h1, fuel);
      Before(w, p, Conf(at, h), t, 1, LoopTest(w, s.cond, s.step, s.body, h1, fuel), x, ga + 1 + |CodeOf(l)|, fuel);
    }
  }

  lemma ForReady(p: Code, at: nat, l: Loop, s: Stmt, x: Ctx, sw: SwitchCtx)
    requires s.For? && Legal(s, x.b > 0, x.c > 0, sw) && l.body == s.body && l.x == x && x.r > 0
    requires l.brk > 0 && l.cont > 0 && l.nb > 0 && Unique(p) && At(p, at, CodeOf(l))
    ensures LoopReady(p, at, l, sw)
  {
    hide Unique, At;
  }

  /** The jump in front of a for loop goes to the label of its test. */
  lemma ToTest(w: World, p: Code, at: nat, l: Loop, h: History)
    requires Unique(p) && At(p, at, [Goto(l.test)]) && At(p, at + 1, CodeOf(l)) && l.test > 0 && l.c.Some?
    ensures Reach(w, p, Conf(at, h), Conf(TailAt(l, at + 1), h), 1)
  {
    hide Unique, Find, Emit, LoopCode;
    AtHead(p, at, [Goto(l.test)]);
    LoopSplit(p, at + 1, l);
    AtHead(p, TailAt(l, at + 1), Tail(l.c, l.test, l.top));
    FindUnique(p, TailAt(l, at + 1));
    ReachStep(w, p, Conf(at, h));
  }

  lemma {:induction false} SimLabelled(w: World, p: Code, at: nat, s: Stmt, s1: Stmt, x: Ctx, n: Label,
        sw: SwitchCtx, m: Mode, h: History, fuel: nat)
    requires (s.Case? || s.Default?) && s1 == s.s && Ready(p, at, s, x, n, sw, m)
    ensures Good(w, p, at, s, x, n, m, h, fuel)
    decreases fuel, s, 4
  {
    hide Unique, Truth, Find, Run, Reach, Lasts, Values, LastLabel, At, Exec, Emit, Legal, EntryPc;
    var g := Emit(s, x, n);
    var sw1 := if s.Case? then With(sw, [Short(s.v)]) else sw;
    LabelledPieces(p, at, s, x, n, sw, m);
    ExecLabelled(w, s, m, h, fuel);
    LabelEntry(p, s, x, n, m, at);
    if m.Seek? && Contains(s1, m.t) {
      Sim(w, p, at + 1, s1, x, n + 1, sw1, m, h, fuel);
    } else {
      Sim(w, p, at + 1, s1, x, n + 1, sw1, FromStart, h, fuel);
      ReachStep(w, p, Conf(at, h));
      EntryStart(p, Emit(s1, x, n + 1), at + 1);
      Before(w, p, Conf(at, h), Conf(at + 1, h), 1, Exec(w, s1, FromStart, h, fuel), x, at + |g.code|, fuel);
    }
  }

  /** A label, and the statement behind it. */
  lemma LabelledPieces(p: Code, at: nat, s: Stmt, x: Ctx, n: Label, sw: SwitchCtx, m: Mode)
    requires (s.Case? || s.Default?) && Ready(p, at, s, x, n, sw, m)
    ensures at < |p| && p[at] == Lab(n) && Find(p, n) == at
    ensures At(p, at + 1, Emit(s.s, x, n + 1).code) && |Emit(s, x, n).code| == 1 + |Emit(s.s, x, n + 1).code|
    ensures Legal(s.s, x.b > 0, x.c > 0, if s.Case? then With(sw, [Short(s.v)]) else sw)
  {
    hide Unique, Find, At;
    AtSplit(p, at, [Lab(n)], Emit(s.s, x, n + 1).code);
    AtHead(p, at, [Lab(n)]);
    FindUnique(p, at);
  }

  lemma EntryStart(p: Code, g: Emitted, at: nat)
    ensures EntryPc(p, g, FromStart, at) == at
  {
  }

  lemma ExecLabelled(w: World, s: Stmt, m: Mode, h: History, fuel: nat)
    requires (s.Case? || s.Default?) && Enters(s, m)
    ensures Exec(w, s, m, h, fuel) == Exec(w, s.s, if m.Seek? && Contains(s.s, m.t) then m else FromStart, h, fuel)
  {
  }

  lemma LabelEntry(p: Code, s: Stmt, x: Ctx, n: Label, m: Mode, at: nat)
    requires (s.Case? || s.Default?) && n > 0 && Enters(s, m) && Find(p, n) == at
    ensures EntryPc(p, Emit(s, x, n), m, at) ==
            if m.Seek? && Contains(s.s, m.t) then EntryPc(p, Emit(s.s, x, n + 1), m, at + 1) else at
  {
    hide Find, Values, LastLabel;
    var g1 := Emit(s.s, x, n + 1);
    EmitCases(s.s, x, n + 1);
    if m.Seek? && m.t.ToCase? {
      CaseValuesContained(s.s, m.t.v);
      if s.Case? {
        LastLabelConcat([Entry(Short(s.v), n)], g1.cases, m.t.v);
        LastLabelOne(Entry(Short(s.v), n));
      }
    }
  }

  lemma LastLabelOne(e: Entry)
    ensures LastLabel([e], e.value) == e.lab
  {
  }

  lemma {:induction false} SimSwitch(w: World, p: Code, at: nat, s: Stmt, x: Ctx, n: Label, sw: SwitchCtx,
        m: Mode, h: History, fuel: nat)
    requires s.Switch? && Ready(p, at, s, x, n, sw, m)
    ensures Good(w, p, at, s, x, n, m, h, fuel)
    decreases fuel, s, 4
  {
    hide Unique, Truth, Find, Run, Reach, Lasts, SwitchCode, Selector, Select, Table;
    var xb := Ctx(n, x.c, x.r);
    var g := Emit(s.body, xb, n + 2);
    var t, end := at + 2 + |g.code|, at + 6 + |g.code|;
    var h1 := h + [Switched(s.a)];
    var chosen := Chosen(s.body, Selector(w, h1));
    var start := Conf(at, h);
    SwitchSplit(p, at, s.a, g, n);
    Dispatch(w, p, at, s, x, n, sw, h);
    if chosen.None? {
      LeaveAt(w, p, t + 3, h1);
      ReachTrans(w, p, start, Conf(t + 3, h1), Conf(end, h1), 1, 1);
      ReachLess(w, p, start, Conf(end, h1), 2);
    } else {
      SimChosen(w, p, at, s, x, n, sw, h, fuel);
    }
  }

  lemma {:induction false} SimChosen(w: World, p: Code, at: nat, s: Stmt, x: Ctx, n: Label, sw: SwitchCtx,
        h: History, fuel: nat)
    requires s.Switch? && Ready(p, at, s, x, n, sw, FromStart)
    requires Chosen(s.body, Selector(w, h + [Switched(s.a)])).Some?
    ensures Good(w, p, at, s, x, n, FromStart, h, fuel)
    decreases fuel, s, 3
  {
    hide Unique, Truth, Find, Run, Reach, Lasts, SwitchCode, Selector, Select, Table;
    var xb := Ctx(n, x.c, x.r);
    var g := Emit(s.body, xb, n + 2);
    var t, end := at + 2 + |g.code|, at + 6 + |g.code|;
    var h1 := h + [Switched(s.a)];
    var chosen := Chosen(s.body, Selector(w, h1));
    SwitchSplit(p, at, s.a, g, n);
    Dispatch(w, p, at, s, x, n, sw, h);
    var m1 := Seek(chosen.value);
    var s1 := Conf(EntryPc(p, g, m1, at + 2), h1);
    var r := Exec(w, s.body, m1, h1, fuel);
    Sim(w, p, at + 2, s.body, xb, n + 2, InSwitch(Used(sw), []), m1, h1, fuel);
    SwitchExit(w, p, s1, r, xb, x, t, fuel);
    Before(w, p, Conf(at, h), s1, 1, LeaveSwitch(r), x, end, fuel);
  }

  lemma LeaveAt(w: World, p: Code, at: nat, h: History)
    requires at < |p| && p[at].Lab?
    ensures Reach(w, p, Conf(at, h), Conf(at + 1, h), 1)
  {
    ReachStep(w, p, Conf(at, h));
  }

  /** Break and the end of the body both leave a switch at its end. */
  lemma SwitchExit(w: World, p: Code, s: Conf, r: Result, xb: Ctx, x: Ctx, t: nat, fuel: nat)
    requires Follows(w, p, s, r, xb, t, fuel) && xb.c == x.c && xb.r == x.r
    requires t + 3 < |p| && p[t] == Goto(xb.b) && p[t + 3].Lab? && Find(p, xb.b) == t + 3
    ensures Follows(w, p, s, LeaveSwitch(r), x, t + 4, fuel)
  {
    hide Find, Run;
    if r.Some? {
      var h := r.value.1;
      LeaveAt(w, p, t + 3, h);
      if r.value.0 == Broke {
        ReachTrans(w, p, s, Conf(t + 3, h), Conf(t + 4, h), 0, 1);
      } else if r.value.0 == Normal {
        ReachStep(w, p, Conf(t, h));
        ReachTrans(w, p, s, Conf(t, h), Conf(t + 3, h), 0, 1);
        ReachTrans(w, p, s, Conf(t + 3, h), Conf(t + 4, h), 1, 1);
      }
    }
  }

  lemma SwitchSplit(p: Code, at: nat, a: Atom, g: Emitted, n: Label)
    requires Unique(p) && At(p, at, SwitchCode(a, g, n))
    ensures var t := at + 2 + |g.code|;
            && t + 4 == at + |SwitchCode(a, g, n)| <= |p|
            && p[at] == Eval(Switched(a)) && p[at + 1] == Goto(n + 1) && At(p, at + 2, g.code)
            && p[t] == Goto(n) && p[t + 1] == Lab(n + 1) && p[t + 3] == Lab(n)
            && p[t + 2] == Jump(Table(g.cases), if g.dflt > 0 then g.dflt else n)
            && Find(p, n) == t + 3 && Find(p, n + 1) == t + 1
  {
    SwitchParts(p, at, a, g, n);
    hide Unique, Find, Table, At, SwitchCode;
    var t := at + 2 + |g.code|;
    FindUnique(p, t + 1);
    FindUnique(p, t + 3);
  }

  lemma SwitchParts(p: Code, at: nat, a: Atom, g: Emitted, n: Label)
    requires At(p, at, SwitchCode(a, g, n))
    ensures var t := at + 2 + |g.code|;
            && t + 4 == at + |SwitchCode(a, g, n)| <= |p|
            && p[at] == Eval(Switched(a)) && p[at + 1] == Goto(n + 1) && At(p, at + 2, g.code)
            && p[t] == Goto(n) && p[t + 1] == Lab(n + 1) && p[t + 3] == Lab(n)
            && p[t + 2] == Jump(Table(g.cases), if g.dflt > 0 then g.dflt else n)
  {
    hide Table;
    var t := at + 2 + |g.code|;
    var head, tail := [Eval(Switched(a)), Goto(n + 1)], SwitchTail(g, n);
    AtSplit(p, at, head, g.code + tail);
    AtSplit(p, at + 2, g.code, tail);
    AtEnd(p, t, tail);
    hide At;
    AtEach(p, at, head);
    AtEach(p, t, tail);
    assert p[at + 1] == head[1];
    assert p[t + 1] == tail[1] && p[t + 2] == tail[2] && p[t + 3] == tail[3];
  }

  lemma AtEnd(p: Code, at: nat, c: Code)
    requires At(p, at, c)
    ensures at + |c| <= |p|
  {
  }

  lemma AtEach(p: Code, at: nat, c: Code)
    requires At(p, at, c)
    ensures forall i :: 0 <= i < |c| ==> p[at + i] == c[i]
  {
    forall i | 0 <= i < |c| ensures p[at + i] == c[i] {
      assert p[at..at + |c|][i] == p[at + i];
    }
  }

  /** From the start of a switch the machine gets to the chosen label, or to
      the break label when there is none. */
  lemma Dispatch(w: World, p: Code, at: nat, s: Stmt, x: Ctx, n: Label, sw: SwitchCtx, h: History)
    requires s.Switch? && Ready(p, at, s, x, n, sw, FromStart)
    ensures var g := Emit(s.body, Ctx(n, x.c, x.r), n + 2);
            var h1 := h + [Switched(s.a)];
            var chosen := Chosen(s.body, Selector(w, h1));
            Reach(w, p, Conf(at, h),
                  Conf(if chosen.Some? then EntryPc(p, g, Seek(chosen.value), at + 2) else Find(p, n), h1), 1)
  {
    hide Unique, Find, Run, Reach, SwitchCode, Table, LastLabel, Values, Selector;
    var g := Emit(s.body, Ctx(n, x.c, x.r), n + 2);
    var v := Selector(w, h + [Switched(s.a)]);
    DispatchRuns(w, p, at, s, x, n, sw, h);
    SwitchSelects(s.body, Ctx(n, x.c, x.r), n + 2, true, x.c > 0, InSwitch(Used(sw), []), if g.dflt > 0 then g.dflt else n, v);
    EmitCases(s.body, Ctx(n, x.c, x.r), n + 2);
    CaseValuesContained(s.body, v);
  }

  /** The selector is evaluated, and looked up in the table behind the body. */
  lemma DispatchRuns(w: World, p: Code, at: nat, s: Stmt, x: Ctx, n: Label, sw: SwitchCtx, h: History)
    requires s.Switch? && Ready(p, at, s, x, n, sw, FromStart)
    ensures var g := Emit(s.body, Ctx(n, x.c, x.r), n + 2);
            var h1 := h + [Switched(s.a)];
            var dflt := if g.dflt > 0 then g.dflt else n;
            Reach(w, p, Conf(at, h), Conf(Find(p, Select(Table(g.cases), dflt, Selector(w, h1))), h1), 1)
  {
    hide Unique, Find, Run, Reach, SwitchCode, Table, Select, Selector, Legal;
    var g := Emit(s.body, Ctx(n, x.c, x.r), n + 2);
    var h1 := h + [Switched(s.a)];
    var v := Selector(w, h1);
    var t := at + 2 + |g.code|;
    var dflt := if g.dflt > 0 then g.dflt else n;
    SwitchSplit(p, at, s.a, g, n);
    ReachStep(w, p, Conf(at, h));
    ReachStep(w, p, Conf(at + 1, h1));
    ReachStep(w, p, Conf(t + 1, h1));
    ReachStep(w, p, Conf(t + 2, h1));
    ReachTrans(w, p, Conf(at, h), Conf(at + 1, h1), Conf(t + 1, h1), 1, 1);
    ReachTrans(w, p, Conf(at, h), Conf(t + 1, h1), Conf(t + 2, h1), 2, 1);
    var goal := Conf(Find(p, Select(Table(g.cases), dflt, v)), h1);
    ReachTrans(w, p, Conf(at, h), Conf(t + 2, h1), goal, 3, 1);
    ReachAtLeast(w, p, Conf(at, h), goal, 4);
  }

  lemma ReachAtLeast(w: World, p: Code, s: Conf, t: Conf, k: nat)
    requires Reach(w, p, s, t, k) && k > 0
    ensures Reach(w, p, s, t, 1)
  {
    hide Run;
  }

  /** The sorted table sends a value to the label its case was given. */
  lemma SwitchSelects(body: Stmt, x: Ctx, n: Label, brk: bool, cnt: bool, sw: SwitchCtx, dflt: Label, v: int)
    requires n > 0 && Legal(body, brk, cnt, sw) && sw.InSwitch? && sw.values == []
    ensures var cases := Emit(body, x, n).cases;
            Select(Table(cases), dflt, v) == if v in CaseValues(body) then LastLabel(cases, v) else dflt
  {
    hide Table, Select, LastLabel, Legal;
    var cases := Emit(body, x, n).cases;
    LegalDistinct(body, brk, cnt, sw);
    EmitCases(body, x, n);
    assert [] + CaseValues(body) == CaseValues(body);
    forall i, j | 0 <= i < j < |cases| ensures cases[i].value != cases[j].value {
      assert Values(cases)[i] != Values(cases)[j];
    }
    SelectCorrect(cases, dflt, v);
  }
}
