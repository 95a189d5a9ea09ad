/** What short statements and conditions evaluate, event by event: meanings that can be
    held against the language, not against the compiler. */
module Traces {
  import opened Machine
  import opened Flow
  import opened Options
  import opened Words

  // ----- conditions -----

  /** On words the comparisons are those of the numbers, signed or unsigned. */
  lemma HoldsOnWords(op: RelOp, x: int, y: int)
    ensures -32768 <= x < 32768 && -32768 <= y < 32768 ==>
              && Holds(Equals, false, x, y) == (x == y) && Holds(NEquals, false, x, y) == (x != y)
              && Holds(Less, false, x, y) == (x < y) && Holds(LessEq, false, x, y) == (x <= y)
              && Holds(Great, false, x, y) == (x > y) && Holds(GreatEq, false, x, y) == (x >= y)
    ensures 0 <= x < 65536 && 0 <= y < 65536 ==>
              && Holds(Equals, true, x, y) == (x == y) && Holds(NEquals, true, x, y) == (x != y)
              && Holds(Less, true, x, y) == (x < y) && Holds(LessEq, true, x, y) == (x <= y)
              && Holds(Great, true, x, y) == (x > y) && Holds(GreatEq, true, x, y) == (x >= y)
  {
  }

  /** `a && b`, `a || b` and `!a` evaluate b only where a does not decide. */
  lemma ShortCircuits(w: World, a: Atom, b: Atom, h: History)
    ensures var yes := w.left(h, a) % 65536 != 0;
            var h1, h2 := h + [Tested(a)], h + [Tested(a)] + [Tested(b)];
            var both := w.left(h1, b) % 65536 != 0;
            && Truth(w, And(Test(a), Test(b)), h) == (if yes then (both, h2) else (false, h1))
            && Truth(w, Or(Test(a), Test(b)), h) == (if yes then (true, h1) else (both, h2))
            && Truth(w, Not(Test(a)), h) == (!yes, h1)
  {
  }

  // ----- loops that go round n times -----

  /** Every test is true until so many events have passed. */
  function Until(limit: nat): World {
    World((h: History, a: Atom) => if |h| < limit then 1 else 0, (h: History, a: Atom) => 0)
  }

  /** n turns of a loop, and the test that ends it. */
  function Turns(n: nat, turn: History, test: Event): History {
    if n == 0 then [test] else [test] + turn + Turns(n - 1, turn, test)
  }

  /** A loop over `test` with body and perhaps a step: the step comes after the body. */
  lemma {:induction false} LoopTrace(test: Atom, body: Atom, step: Option<Atom>, n: nat, h: History, fuel: nat)
    requires n <= fuel
    ensures var turn := [Did(body)] + if step.Some? then [Did(step.value)] else [];
            var limit := |h| + n * (|turn| + 1);
            LoopTest(Until(limit), Some(Test(test)), step, Expr(body), h, fuel) ==
            Some((Normal, h + Turns(n, turn, Tested(test))))
    decreases n
  {
    var turn := [Did(body)] + if step.Some? then [Did(step.value)] else [];
    var limit := |h| + n * (|turn| + 1);
    var w, h1 := Until(limit), h + [Tested(test)];
    if n > 0 {
      var h2 := After(h1 + [Did(body)], step);
      assert h2 == h + ([Tested(test)] + turn);
      assert limit == |h2| + (n - 1) * (|turn| + 1);
      LoopTrace(test, body, step, n - 1, h2, fuel - 1);
      assert h2 + Turns(n - 1, turn, Tested(test)) == h + Turns(n, turn, Tested(test));
      TurnMore(w, test, body, step, h, fuel);
    } else {
      TurnNone(w, test, body, step, h, fuel);
    }
  }

  lemma TurnMore(w: World, test: Atom, body: Atom, step: Option<Atom>, h: History, fuel: nat)
    requires fuel > 0 && w.left(h, test) == 1
    ensures LoopTest(w, Some(Test(test)), step, Expr(body), h, fuel)
         == LoopTest(w, Some(Test(test)), step, Expr(body), After(h + [Tested(test)] + [Did(body)], step), fuel - 1)
  {
    BodyOnce(w, test, body, step, h + [Tested(test)], fuel - 1);
  }

  lemma BodyOnce(w: World, test: Atom, body: Atom, step: Option<Atom>, h: History, fuel: nat)
    ensures LoopBody(w, Some(Test(test)), step, Expr(body), FromStart, h, fuel)
         == LoopTest(w, Some(Test(test)), step, Expr(body), After(h + [Did(body)], step), fuel)
  {
    hide LoopTest;
  }

  lemma TurnNone(w: World, test: Atom, body: Atom, step: Option<Atom>, h: History, fuel: nat)
    requires w.left(h, test) == 0
    ensures LoopTest(w, Some(Test(test)), step, Expr(body), h, fuel) == Some((Normal, h + [Tested(test)]))
  {
  }

  /** `while (t) b;` with a test that holds n times: test and body n times, and the test. */
  lemma WhileTrace(test: Atom, body: Atom, n: nat)
    ensures Exec(Until(2 * n), While(Test(test), Expr(body)), FromStart, [], n)
         == Some((Normal, Turns(n, [Did(body)], Tested(test))))
  {
    LoopTrace(test, body, None, n, [], n);
    assert [Did(body)] + [] == [Did(body)];
    assert [] + Turns(n, [Did(body)], Tested(test)) == Turns(n, [Did(body)], Tested(test));
  }

  /** `for (i; t; s) b;`: i once, and then test, body and step in turn. */
  lemma ForTrace(init: Atom, test: Atom, step: Atom, body: Atom, n: nat)
    ensures Exec(Until(1 + 3 * n), For(Some(init), Some(Test(test)), Some(step), Expr(body)), FromStart, [], n)
         == Some((Normal, [Did(init)] + Turns(n, [Did(body), Did(step)], Tested(test))))
  {
    LoopTrace(test, body, Some(step), n, [Did(init)], n);
    assert [Did(body)] + [Did(step)] == [Did(body), Did(step)];
    assert [] + [Did(init)] == [Did(init)];
  }

  /** `do b; while (t);`: the body once before the first test. */
  lemma DoTrace(test: Atom, body: Atom, n: nat)
    ensures Exec(Until(1 + 2 * n), Do(Expr(body), Some(Test(test))), FromStart, [], n)
         == Some((Normal, [Did(body)] + Turns(n, [Did(body)], Tested(test))))
  {
    LoopTrace(test, body, None, n, [Did(body)], n);
    BodyOnce(Until(1 + 2 * n), test, body, None, [], n);
    assert [Did(body)] + [] == [Did(body)] && [] + [Did(body)] == [Did(body)];
  }

  /** `continue` goes on with the step, `break` leaves without it. */
  lemma JumpsTrace(init: Atom, test: Atom, step: Atom)
    ensures Exec(Until(2), For(Some(init), Some(Test(test)), Some(step), Continue), FromStart, [], 1)
         == Some((Normal, [Did(init), Tested(test), Did(step), Tested(test)]))
    ensures Exec(Until(2), For(Some(init), Some(Test(test)), Some(step), Break), FromStart, [], 1)
         == Some((Normal, [Did(init), Tested(test)]))
  {
    var w := Until(2);
    var h1, h2 := [Did(init)], [Did(init), Tested(test)];
    var h3, h4 := [Did(init), Tested(test), Did(step)], [Did(init), Tested(test), Did(step), Tested(test)];
    assert [] + [Did(init)] == h1 && h1 + [Tested(test)] == h2 && h2 + [Did(step)] == h3 && h3 + [Tested(test)] == h4;
    assert LoopTest(w, Some(Test(test)), Some(step), Continue, h3, 0) == Some((Normal, h4));
  }

  /** `if (t) a; else b;` */
  lemma IfTrace(w: World, test: Atom, a: Atom, b: Atom)
    ensures var yes := w.left([], test) % 65536 != 0;
            && Exec(w, IfElse(Test(test), Expr(a), Expr(b)), FromStart, [], 0)
               == Some((Normal, [Tested(test), Did(if yes then a else b)]))
            && Exec(w, If(Test(test), Expr(a)), FromStart, [], 0)
               == Some((Normal, if yes then [Tested(test), Did(a)] else [Tested(test)]))
  {
    assert [] + [Tested(test)] == [Tested(test)];
    assert [Tested(test)] + [Did(a)] == [Tested(test), Did(a)] && [Tested(test)] + [Did(b)] == [Tested(test), Did(b)];
  }

  /** `switch (x) { default: a; case 7: b; break; case 8: c; }`: falls through, leaves at a
      break, and goes to the default from every other value, wherever that stands. */
  function Cases(a: Atom, b: Atom, c: Atom): Stmt {
    Seq(Default(Expr(a)), Seq(Case(7, Expr(b)), Seq(Break, Case(8, Expr(c)))))
  }

  lemma SwitchTrace(w: World, x: Atom, a: Atom, b: Atom, c: Atom)
    requires -32768 <= w.left([], x) < 32768
    ensures var v := w.left([], x);
            Exec(w, Switch(x, Cases(a, b, c)), FromStart, [], 0) ==
            Some((Normal, if v == 7 then [Switched(x), Did(b)]
                          else if v == 8 then [Switched(x), Did(c)]
                          else [Switched(x), Did(a), Did(b)]))
  {
    var h := [Switched(x)];
    assert [] + h == h && h[..0] == [];
    assert h + [Did(a)] + [Did(b)] == [Switched(x), Did(a), Did(b)];
    assert h + [Did(b)] == [Switched(x), Did(b)] && h + [Did(c)] == [Switched(x), Did(c)];
    SwitchBody(w, a, b, c, h);
  }

  lemma SwitchBody(w: World, a: Atom, b: Atom, c: Atom, h: History)
    ensures Contains(Cases(a, b, c), ToCase(7)) && Contains(Cases(a, b, c), ToCase(8)) && Contains(Cases(a, b, c), ToDefault)
    ensures forall v :: Contains(Cases(a, b, c), ToCase(v)) <==> v == 7 || v == 8
    ensures Exec(w, Cases(a, b, c), Seek(ToCase(7)), h, 0) == Some((Broke, h + [Did(b)]))
    ensures Exec(w, Cases(a, b, c), Seek(ToCase(8)), h, 0) == Some((Normal, h + [Did(c)]))
    ensures Exec(w, Cases(a, b, c), Seek(ToDefault), h, 0) == Some((Broke, h + [Did(a)] + [Did(b)]))
  {
    var d, k := Seq(Break, Case(8, Expr(c))), Case(7, Expr(b));
    var e := Seq(k, d);
    assert Short(7) == 7 && Short(8) == 8;
    assert forall x, t :: !Contains(Expr(x), t);
    assert forall t :: Contains(Case(8, Expr(c)), t) <==> t == ToCase(8);
    assert forall t :: Contains(d, t) <==> t == ToCase(8);
    assert forall t :: Contains(k, t) <==> t == ToCase(7);
    assert forall t :: Contains(e, t) <==> t == ToCase(7) || t == ToCase(8);
    assert forall t :: Contains(Default(Expr(a)), t) <==> t == ToDefault;
    assert forall t :: Contains(Cases(a, b, c), t) <==> t == ToDefault || t == ToCase(7) || t == ToCase(8);
    LeavesAt(w, b, c, h);
    var h1, h2 := h + [Did(b)], h + [Did(a)];
    assert Exec(w, k, Seek(ToCase(7)), h, 0) == Some((Normal, h1));
    assert Exec(w, Expr(c), FromStart, h, 0) == Some((Normal, h + [Did(c)]));
    assert Exec(w, Case(8, Expr(c)), Seek(ToCase(8)), h, 0) == Some((Normal, h + [Did(c)]));
    assert Exec(w, d, Seek(ToCase(8)), h, 0) == Some((Normal, h + [Did(c)]));
    assert Exec(w, e, Seek(ToCase(7)), h, 0) == Some((Broke, h1));
    assert Exec(w, k, FromStart, h2, 0) == Some((Normal, h2 + [Did(b)]));
    LeavesAt(w, b, c, h2);
    assert Exec(w, e, FromStart, h2, 0) == Some((Broke, h2 + [Did(b)]));
    assert Exec(w, Default(Expr(a)), Seek(ToDefault), h, 0) == Some((Normal, h2));
  }

  lemma LeavesAt(w: World, b: Atom, c: Atom, h: History)
    ensures var h1 := h + [Did(b)]; Exec(w, Seq(Break, Case(8, Expr(c))), FromStart, h1, 0) == Some((Broke, h1))
  {
    var h1 := h + [Did(b)];
    assert Exec(w, Break, FromStart, h1, 0) == Some((Broke, h1));
  }
}
