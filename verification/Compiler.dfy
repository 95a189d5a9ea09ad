/** Both passes on a function body, and that they keep its meaning. */
module Compiler {
  import opened Acceptance
  import opened Machine
  import opened Options
  import opened Flow
  import opened FirstPass
  import opened StmtParser
  import opened Condbr
  import opened SecondPass
  import opened Arithmetic
  import opened FlowCorrect

  /** The machine stops at the end of the code with history h. */
  ghost predicate Halts(w: World, p: Code, h0: History, h: History) {
    Reach(w, p, Conf(0, h0), Conf(|p|, h), 0)
  }

  /** The statement finishes, one way or another, with history h. */
  ghost predicate Finishes(w: World, s: Stmt, h0: History, h: History) {
    exists fuel: nat :: Exec(w, s, FromStart, h0, fuel).Some? && Exec(w, s, FromStart, h0, fuel).value.1 == h
  }

  lemma BodyReady(s: Stmt, r: Label, n: Label, m: Label)
    requires Legal(s, false, false, NoSwitch) && 0 < r < n && Emit(s, Ctx(0, 0, r), n).next <= m
    ensures var p := Body(s, r, n);
            && Unique(p) && AllBelow(p, m) && |p| == |Emit(s, Ctx(0, 0, r), n).code| + 1
            && Ready(p, 0, s, Ctx(0, 0, r), n, NoSwitch, FromStart)
            && p[|p| - 1] == Lab(r) && Find(p, r) == |p| - 1
  {
    hide Legal, Emit, Unique, Defs, Find, Below;
    var x, p := Ctx(0, 0, r), Body(s, r, n);
    var c := Emit(s, x, n).code;
    EmitLabels(s, x, n);
    DefinesOne(Lab(r));
    UniqueConcat(c, [Lab(r)]);
    EmitBelow(s, x, n, m);
    assert Below(Lab(r), m) by { LabBelow(r, m); }
    assert p[0..|c|] == c;
    FindUnique(p, |p| - 1);
  }

  lemma LabBelow(r: Label, m: Label)
    requires r < m
    ensures Below(Lab(r), m)
  {
  }

  /** First-pass code: what finishes within the fuel halts with the same
      history, and what does not runs for at least as many steps. */
  lemma BodyFollows(w: World, s: Stmt, r: Label, n: Label, h0: History, fuel: nat)
    requires Legal(s, false, false, NoSwitch) && 0 < r < n
    ensures var e := Exec(w, s, FromStart, h0, fuel);
            if e.Some? then Halts(w, Body(s, r, n), h0, e.value.1) else Lasts(w, Body(s, r, n), Conf(0, h0), fuel)
  {
    hide Legal, Emit, Unique, Find, Run, Exec;
    var x, p := Ctx(0, 0, r), Body(s, r, n);
    var e := Exec(w, s, FromStart, h0, fuel);
    BodyReady(s, r, n, Emit(s, x, n).next);
    Sim(w, p, 0, s, x, n, NoSwitch, FromStart, h0, fuel);
    if e.Some? {
      NoStrayExit(w, s, FromStart, h0, fuel, false, false, NoSwitch);
      ReachStep(w, p, Conf(|p| - 1, e.value.1));
      ReachTrans(w, p, Conf(0, h0), Conf(|p| - 1, e.value.1), Conf(|p|, e.value.1), 0, 1);
      Weaken(w, p, Conf(0, h0), Conf(|p|, e.value.1), 1, 0);
    }
  }

  /** The final code of a function: both passes, labels of the second from m on. */
  function Compiled(s: Stmt, r: Label, n: Label, m: Label): Code {
    Out(Body(s, r, n), m)
  }

  lemma CompiledHalts(w: World, s: Stmt, r: Label, n: Label, m: Label, h0: History, h: History)
    requires Legal(s, false, false, NoSwitch) && 0 < r < n && Emit(s, Ctx(0, 0, r), n).next <= m
    requires Halts(w, Body(s, r, n), h0, h)
    ensures Halts(w, Compiled(s, r, n, m), h0, h)
  {
    hide Legal, Emit, Unique, Find, Lowered, Below;
    var p := Body(s, r, n);
    BodyReady(s, r, n, m);
    var k: nat :| k >= 0 && Run(w, p, Conf(0, h0), k) == Some(Conf(|p|, h));
    var j := RunLowered(w, p, m, Conf(0, h0), k);
    LoweredNone(p, m);
    Weaken(w, Out(p, m), Conf(0, h0), Conf(|Out(p, m)|, h), j, 0);
  }

  lemma LoweredNone(p: Code, m: Label)
    ensures Pos(p, m, 0) == 0
  {
  }

  lemma CompiledLasts(w: World, s: Stmt, r: Label, n: Label, m: Label, h0: History, fuel: nat, k: nat)
    requires Legal(s, false, false, NoSwitch) && 0 < r < n && Emit(s, Ctx(0, 0, r), n).next <= m
    requires Lasts(w, Body(s, r, n), Conf(0, h0), fuel) && fuel > k * (|Body(s, r, n)| + 1) + |Body(s, r, n)|
    ensures Lasts(w, Compiled(s, r, n, m), Conf(0, h0), k + 1)
  {
    hide Legal, Emit, Unique, Find, Lowered, Below, Run;
    var p := Body(s, r, n);
    BodyReady(s, r, n, m);
    LoweredNone(p, m);
    var j := RunLowered(w, p, m, Conf(0, h0), fuel);
    var t := Run(w, p, Conf(0, h0), fuel).value;
    if j <= k {
      MulMono(j, k, |p| + 1);
    }
    Weaken(w, Out(p, m), Conf(0, h0), Conf(Pos(p, m, t.pc), t.h), j, k + 1);
    ReachLasts(w, Out(p, m), Conf(0, h0), Conf(Pos(p, m, t.pc), t.h), k + 1);
  }

  lemma ReachLasts(w: World, p: Code, s: Conf, t: Conf, k: nat)
    requires Reach(w, p, s, t, k)
    ensures Lasts(w, p, s, k)
  {
    hide Run;
    var n: nat :| n >= k && Run(w, p, s, n) == Some(t);
    LastsLess(w, p, s, n, k);
  }

  /** The compiler is correct: the final code of a legal function body halts
      with a history exactly when the body finishes with that history, and so
      runs for ever exactly when the body does. */
  lemma CompilerCorrect(w: World, s: Stmt, r: Label, n: Label, m: Label, h0: History, h: History)
    requires Legal(s, false, false, NoSwitch) && 0 < r < n && Emit(s, Ctx(0, 0, r), n).next <= m
    ensures Finishes(w, s, h0, h) <==> Halts(w, Compiled(s, r, n, m), h0, h)
  {
    hide Legal, Emit, Exec, Body, Out, Run;
    var q := Compiled(s, r, n, m);
    if Finishes(w, s, h0, h) {
      var fuel: nat :| Exec(w, s, FromStart, h0, fuel).Some? && Exec(w, s, FromStart, h0, fuel).value.1 == h;
      BodyFollows(w, s, r, n, h0, fuel);
      CompiledHalts(w, s, r, n, m, h0, h);
    }
    if Halts(w, q, h0, h) {
      var k: nat :| k >= 0 && Run(w, q, Conf(0, h0), k) == Some(Conf(|q|, h));
      var len := |Body(s, r, n)|;
      var fuel := k * (len + 1) + len + 1;
      BodyFollows(w, s, r, n, h0, fuel);
      var e := Exec(w, s, FromStart, h0, fuel);
      if e.None? {
        CompiledLasts(w, s, r, n, m, h0, fuel, k);
        PastTheEnd(w, q, Conf(0, h0), k, Conf(|q|, h));
      } else {
        CompiledHalts(w, s, r, n, m, h0, e.value.1);
        var k2: nat :| k2 >= 0 && Run(w, q, Conf(0, h0), k2) == Some(Conf(|q|, e.value.1));
        HaltsOnce(w, q, Conf(0, h0), k, k2, Conf(|q|, h), Conf(|q|, e.value.1));
      }
    }
  }

  lemma PastTheEnd(w: World, p: Code, s: Conf, k: nat, t: Conf)
    requires Run(w, p, s, k) == Some(t) && t.pc >= |p|
    ensures !Lasts(w, p, s, k + 1)
  {
    RunAdd(w, p, s, k, 1);
  }

  /** The first pass on a whole function body: accepted exactly when legal. */
  method RunFirstPass(s: Stmt, r: Label, n: Label) returns (ok: bool, code: Code, next: Label)
    requires 0 < r < n
    ensures ok <==> Legal(s, false, false, NoSwitch)
    ensures ok ==> code == Body(s, r, n) && next == Emit(s, Ctx(0, 0, r), n).next
  {
    hide Emit, Legal;
    var parser := new Parser(n, r);
    parser.Stmt(s);
    return parser.errors == 0, parser.code + [Lab(r)], parser.nextlabel;
  }

  /** The second pass reads the first pass's code one instruction at a time. */
  method RunSecondPass(p: Code, m: Label) returns (q: Code)
    ensures q == Out(p, m)
  {
    hide Jumps;
    var gen := new CodeGen(m);
    for i := 0 to |p|
      invariant gen.code == Lowered(p, m, i) && gen.nextlabel == LabelAt(p, m, i)
      invariant fresh(gen)
    {
      if p[i].IfGoto? {
        gen.CondBr(p[i].c, p[i].dir, p[i].l);
      } else {
        gen.Out(p[i]);
      }
    }
    q := gen.code;
  }

  /** A function body is compiled exactly when all its parts stand where they may
      (`Acceptable`, which says what that is from around each part), and then, in every
      world and from every history, the final code stops with the history the
      body finishes with, or never stops when the body never finishes. */
  method Compile(s: Stmt, r: Label, n: Label) returns (ok: bool, code: Code)
    requires 0 < r < n
    ensures ok <==> Acceptable(s)
    ensures ok ==> forall w: World, h0: History, h: History ::
        Finishes(w, s, h0, h) <==> Halts(w, code, h0, h)
  {
    hide Emit, Legal, Body, Out, Finishes, Halts, Acceptable;
    LegalExact(s);
    var pass1, next;
    ok, pass1, next := RunFirstPass(s, r, n);
    code := [];
    if ok {
      code := RunSecondPass(pass1, next);
      forall w: World, h0: History, h: History
        ensures Finishes(w, s, h0, h) <==> Halts(w, code, h0, h)
      {
        CompilerCorrect(w, s, r, n, next, h0, h);
      }
    }
  }
}
