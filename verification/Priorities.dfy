/** What short lines of a constant expression come to: which operators bind tighter,
    and what each one computes. */
module Priorities {
  import opened Arithmetic
  import opened Bits
  import opened Words
  import opened Cexpr

  // ----- the binary operators, tightest first -----

  predicate Multiplicative(op: Opr) { op.Mult? || op.Div? || op.Mod? }
  predicate Additive(op: Opr) { op.Add? || op.Sub? }
  predicate Relational(op: Opr) { op.Less? || op.LsEqual? || op.Great? || op.GrEqual? }
  predicate Equality(op: Opr) { op.Equal? || op.NEqual? }
  predicate OrXor(op: Opr) { op.Or? || op.Xor? }
  predicate Shifts(op: Opr) { op.LShift? || op.RShift? }

  predicate Binary(op: Opr) {
    Multiplicative(op) || Additive(op) || Relational(op) || Equality(op) || op.And? || OrXor(op) || Shifts(op)
  }

  predicate Tighter(op: Opr, op2: Opr) {
    || (Multiplicative(op) && (Additive(op2) || Relational(op2) || Equality(op2) || op2.And? || OrXor(op2) || Shifts(op2)))
    || (Additive(op) && (Relational(op2) || Equality(op2) || op2.And? || OrXor(op2) || Shifts(op2)))
    || (Relational(op) && (Equality(op2) || op2.And? || OrXor(op2) || Shifts(op2)))
    || (Equality(op) && (op2.And? || OrXor(op2) || Shifts(op2)))
    || (op.And? && (OrXor(op2) || Shifts(op2)))
    || (OrXor(op) && Shifts(op2))
  }

  // ----- lines -----

  function Line(m: Shifter, ts: seq<Token>): Outcome<int> { Answer(m, ts + [NewLine]) }

  function Two(m: Shifter, a: int, op: Opr, b: int): Outcome<int>
    requires Binary(op)
  {
    Line(m, [Const(a), Sign(op), Const(b)])
  }

  /** Goes on with a value, or keeps the trouble. */
  function Then(o: Outcome<int>, f: int -> Outcome<int>): Outcome<int> {
    if o.Bad? then o else f(o.v)
  }

  lemma LineIs(m: Shifter, e: Expr)
    requires Stands(e, 0)
    ensures Line(m, Written(e)) == Verdict(m, 0, 0, e)
  {
    hide Answer, Written, Verdict, Eval;
    Evaluates(m, e, []);
    assert [NewLine] + [] == [NewLine];
  }

  function Result(m: Shifter, a: int, op: Opr, b: int): Outcome<int>
    requires IsPlain(op)
  {
    if Divides(op, b) then Bad(ZeroDivide) else Good(Arith(m, op, a, b))
  }

  // One step into an expression.

  /** May stand where an operand of this level is expected. */
  predicate Stands(e: Expr, level: nat) { Proper(e) && Grouped(e) && Level(e) >= level }

  lemma LitSays(m: Shifter, d: nat, n: nat, v: int)
    requires n < 60
    ensures Stands(Lit(v), 21) && Written(Lit(v)) == [Const(v)] && Verdict(m, d, n, Lit(v)) == Good(v)
  {
  }

  lemma BinSays(m: Shifter, d: nat, n: nat, op: Opr, l: Expr, r: Expr)
    requires IsPlain(op) && d < 60 && Stands(l, Pri(op) + 1) && Stands(r, Pri(op))
    ensures var e := Bin(op, l, r);
            && Stands(e, Pri(op)) && Written(e) == Written(l) + [Sign(op)] + Written(r)
            && Verdict(m, d, n, e) ==
               var x := Verdict(m, d, n, l);
               if x.Bad? then x
               else
                 var y := Verdict(m, d + 1, n + 1, r);
                 if y.Bad? then y else Result(m, x.v, op, y.v)
  {
    hide Arith;
  }

  lemma CondSays(m: Shifter, d: nat, n: nat, c: Expr, a: Expr, b: Expr)
    requires d < 60 && Stands(c, 7) && Stands(a, 7) && Stands(b, 6)
    ensures var e := Cond(c, a, b);
            && Stands(e, 6) && Written(e) == Written(c) + [Sign(QMark)] + Written(a) + [Sign(Colon)] + Written(b)
            && Verdict(m, d, n, e) ==
               var z := Verdict(m, d, n, c);
               if z.Bad? then z
               else
                 var x := Verdict(m, d + 1, n + 1, a);
                 if x.Bad? then x
                 else
                   var y := Verdict(m, d + 2, n + 2, b);
                   if y.Bad? then y else Good(if z.v != 0 then x.v else y.v)
  {
  }

  lemma ParenSays(m: Shifter, d: nat, n: nat, e: Expr)
    requires d < 60 && Stands(e, 0)
    ensures Stands(Paren(e), 21) && Written(Paren(e)) == [Sign(LParen)] + Written(e) + [Sign(RParen)]
    ensures Verdict(m, d, n, Paren(e)) == Verdict(m, d + 1, n, e)
  {
  }

  lemma UnSays(m: Shifter, d: nat, n: nat, p: Opr, e: Expr)
    requires d < 60 && IsPrefix(p) && Stands(e, 20)
    ensures Stands(Un(p, e), 20) && Written(Un(p, e)) == [Sign(if p.Neg? then Sub else p)] + Written(e)
    ensures var x := Verdict(m, d + 1, n, e);
            Verdict(m, d, n, Un(p, e)) == if x.Bad? then x else Good(Prefix(p, x.v))
  {
    hide Prefix;
  }

  lemma PlusSays(m: Shifter, d: nat, n: nat, e: Expr, level: nat)
    requires Stands(e, level)
    ensures Stands(Plus(e), level) && Written(Plus(e)) == [Sign(Add)] + Written(e)
    ensures Verdict(m, d, n, Plus(e)) == Verdict(m, d, n, e)
  {
  }

  lemma PairSays(m: Shifter, d: nat, n: nat, a: int, op: Opr, b: int)
    requires IsPlain(op) && d < 60 && n < 58
    ensures var e := Bin(op, Lit(a), Lit(b));
            Stands(e, Pri(op)) && Written(e) == [Const(a), Sign(op), Const(b)] && Verdict(m, d, n, e) == Result(m, a, op, b)
  {
    hide Verdict, Written, Result, Proper, Grouped;
    LitSays(m, d, n, a);
    LitSays(m, d + 1, n + 1, b);
    BinSays(m, d, n, op, Lit(a), Lit(b));
  }

  lemma TwoIs(m: Shifter, a: int, op: Opr, b: int)
    requires Binary(op)
    ensures IsPlain(op) && Two(m, a, op, b) == Result(m, a, op, b)
  {
    hide Line, Result, Verdict, Written, Proper, Grouped;
    PairSays(m, 0, 0, a, op, b);
    LineIs(m, Bin(op, Lit(a), Lit(b)));
  }

  lemma Tiers(op: Opr)
    ensures Multiplicative(op) ==> Pri(op) == 18
    ensures Additive(op) ==> Pri(op) == 16
    ensures Relational(op) ==> Pri(op) == 14
    ensures Equality(op) ==> Pri(op) == 12
    ensures op.And? ==> Pri(op) == 10
    ensures OrXor(op) ==> Pri(op) == 8
    ensures Shifts(op) ==> Pri(op) == 4
  {
  }

  lemma TighterIs(op: Opr, op2: Opr)
    requires Binary(op) && Binary(op2)
    ensures Tighter(op, op2) <==> Pri(op) > Pri(op2)
  {
    hide Pri, Multiplicative, Additive, Relational, Equality, OrXor, Shifts;
    Tiers(op);
    Tiers(op2);
  }

  /** a op b op2 c groups to the left exactly when the first operator binds tighter. */
  lemma Groups(m: Shifter, a: int, op: Opr, b: int, op2: Opr, c: int)
    requires Binary(op) && Binary(op2)
    ensures Line(m, [Const(a), Sign(op), Const(b), Sign(op2), Const(c)]) ==
            if Tighter(op, op2) then Then(Two(m, a, op, b), x => Two(m, x, op2, c))
            else Then(Two(m, b, op2, c), y => Two(m, a, op, y))
  {
    hide Line, Arith, Tighter, Two;
    TighterIs(op, op2);
    TwoIs(m, a, op, b);
    TwoIs(m, b, op2, c);
    if Tighter(op, op2) {
      LeftLine(m, a, op, b, op2, c);
      var x := Two(m, a, op, b);
      if x.Good? { TwoIs(m, x.v, op2, c); }
    } else {
      RightLine(m, a, op, b, op2, c);
      var y := Two(m, b, op2, c);
      if y.Good? { TwoIs(m, a, op, y.v); }
    }
  }

  lemma LeftLine(m: Shifter, a: int, op: Opr, b: int, op2: Opr, c: int)
    requires IsPlain(op) && IsPlain(op2) && Pri(op) > Pri(op2)
    ensures Line(m, [Const(a), Sign(op), Const(b), Sign(op2), Const(c)])
         == Then(Result(m, a, op, b), x => Result(m, x, op2, c))
  {
    hide Line, Result, Verdict, Written, Proper, Grouped;
    var l := Bin(op, Lit(a), Lit(b));
    PairSays(m, 0, 0, a, op, b);
    LitSays(m, 1, 1, c);
    BinSays(m, 0, 0, op2, l, Lit(c));
    LineIs(m, Bin(op2, l, Lit(c)));
    assert Written(l) + [Sign(op2)] + Written(Lit(c)) == [Const(a), Sign(op), Const(b), Sign(op2), Const(c)];
  }

  lemma RightLine(m: Shifter, a: int, op: Opr, b: int, op2: Opr, c: int)
    requires IsPlain(op) && IsPlain(op2) && Pri(op) <= Pri(op2)
    ensures Line(m, [Const(a), Sign(op), Const(b), Sign(op2), Const(c)])
         == Then(Result(m, b, op2, c), y => Result(m, a, op, y))
  {
    hide Line, Result, Verdict, Written, Proper, Grouped;
    var r := Bin(op2, Lit(b), Lit(c));
    LitSays(m, 0, 0, a);
    PairSays(m, 1, 1, b, op2, c);
    BinSays(m, 0, 0, op, Lit(a), r);
    LineIs(m, Bin(op, Lit(a), r));
    assert Written(Lit(a)) + [Sign(op)] + Written(r) == [Const(a), Sign(op), Const(b), Sign(op2), Const(c)];
  }

  // ----- what each operator computes -----

  lemma Sums(m: Shifter, a: int, b: int)
    ensures Two(m, a, Add, b) == Good(Short(a + b))
    ensures Two(m, a, Sub, b) == Good(Short(a - b))
    ensures Two(m, a, Mult, b) == Good(Short(a * b))
    ensures Two(m, a, LShift, b) == Good(Short(m.left(a, b)))
    ensures Two(m, a, RShift, b) == Good(Short(m.right(a, b)))
  {
    hide Two, Short;
    TwoIs(m, a, Add, b);
    TwoIs(m, a, Sub, b);
    TwoIs(m, a, Mult, b);
    TwoIs(m, a, LShift, b);
    TwoIs(m, a, RShift, b);
  }

  lemma Comparisons(m: Shifter, a: int, b: int)
    ensures Two(m, a, Equal, b) == Good(if a == b then 1 else 0)
    ensures Two(m, a, NEqual, b) == Good(if a == b then 0 else 1)
    ensures Two(m, a, Less, b) == Good(if a < b then 1 else 0)
    ensures Two(m, a, LsEqual, b) == Good(if a <= b then 1 else 0)
    ensures Two(m, a, Great, b) == Good(if a > b then 1 else 0)
    ensures Two(m, a, GrEqual, b) == Good(if a >= b then 1 else 0)
  {
    hide Two;
    TwoIs(m, a, Equal, b);
    TwoIs(m, a, NEqual, b);
    TwoIs(m, a, Less, b);
    TwoIs(m, a, LsEqual, b);
    TwoIs(m, a, Great, b);
    TwoIs(m, a, GrEqual, b);
  }

  lemma BitOperators(m: Shifter, a: int, b: int, k: nat)
    ensures var and, or, xor := Two(m, a, And, b), Two(m, a, Or, b), Two(m, a, Xor, b);
            && and.Good? && (BitOf(and.v, k) == 1 <==> BitOf(a, k) == 1 && BitOf(b, k) == 1)
            && or.Good? && (BitOf(or.v, k) == 1 <==> BitOf(a, k) == 1 || BitOf(b, k) == 1)
            && xor.Good? && (BitOf(xor.v, k) == 1 <==> BitOf(a, k) != BitOf(b, k))
  {
    hide Two, Bitwise, BitOf;
    TwoIs(m, a, And, b);
    TwoIs(m, a, Or, b);
    TwoIs(m, a, Xor, b);
    BitwiseMeaning(a, b, k);
  }

  /** Division cuts towards zero, and the remainder has the sign of the dividend. */
  lemma Divisions(m: Shifter, a: int, b: int) returns (q: int, r: int)
    ensures b == 0 ==> Two(m, a, Div, b) == Bad(ZeroDivide) && Two(m, a, Mod, b) == Bad(ZeroDivide)
    ensures b != 0 ==> a == b * q + r && Abs(r) < Abs(b) && (a >= 0 ==> r >= 0) && (a <= 0 ==> r <= 0)
    ensures b != 0 ==> Two(m, a, Div, b) == Good(Short(q)) && Two(m, a, Mod, b) == Good(Short(r))
  {
    hide Two, Short;
    TwoIs(m, a, Div, b);
    TwoIs(m, a, Mod, b);
    q, r := 0, 0;
    if b != 0 {
      q := Quotient(a, b);
      r := a - b * q;
      TowardsZero(a, b);
    }
  }

  lemma TowardsZero(a: int, b: int)
    requires b != 0
    ensures var q := Quotient(a, b);
            var r := a - b * q;
            Abs(r) < Abs(b) && (a >= 0 ==> r >= 0) && (a <= 0 ==> r <= 0)
  {
    var p := if a >= 0 then a else -a;
    Euclid(p, b);
    Opposite(b, p / b);
  }

  lemma Euclid(p: int, b: int)
    requires b != 0
    ensures p == b * (p / b) + p % b && 0 <= p % b < Abs(b)
  {
  }

  lemma Opposite(b: int, q: int)
    ensures b * -q == -(b * q)
  {
  }

  // ----- prefix operators, parentheses and ?: -----

  lemma PrefixFirst(m: Shifter, a: int, op: Opr, b: int)
    requires Binary(op)
    ensures Line(m, [Sign(Not), Const(a), Sign(op), Const(b)]) == Two(m, if a == 0 then 1 else 0, op, b)
    ensures Line(m, [Sign(Sub), Const(a), Sign(op), Const(b)]) == Two(m, Short(-a), op, b)
    ensures Line(m, [Sign(Compl), Const(a), Sign(op), Const(b)]) == Two(m, -a - 1, op, b)
    ensures Line(m, [Sign(Add), Const(a), Sign(op), Const(b)]) == Two(m, a, op, b)
  {
    hide Two, Line, Short;
    TwoIs(m, if a == 0 then 1 else 0, op, b);
    TwoIs(m, Short(-a), op, b);
    TwoIs(m, -a - 1, op, b);
    TwoIs(m, a, op, b);
    PrefixLine(m, Not, a, op, b);
    PrefixLine(m, Neg, a, op, b);
    PrefixLine(m, Compl, a, op, b);
    PlusLine(m, a, op, b);
  }

  lemma PrefixLine(m: Shifter, p: Opr, a: int, op: Opr, b: int)
    requires IsPlain(op) && IsPrefix(p)
    ensures Line(m, [Sign(if p.Neg? then Sub else p), Const(a), Sign(op), Const(b)]) == Result(m, Prefix(p, a), op, b)
  {
    hide Line, Result, Verdict, Written, Proper, Grouped, Prefix;
    var l := Un(p, Lit(a));
    LitSays(m, 1, 0, a);
    UnSays(m, 0, 0, p, Lit(a));
    LitSays(m, 1, 1, b);
    BinSays(m, 0, 0, op, l, Lit(b));
    LineIs(m, Bin(op, l, Lit(b)));
    assert Written(l) + [Sign(op)] + Written(Lit(b)) == [Sign(if p.Neg? then Sub else p), Const(a), Sign(op), Const(b)];
  }

  lemma PlusLine(m: Shifter, a: int, op: Opr, b: int)
    requires IsPlain(op)
    ensures Line(m, [Sign(Add), Const(a), Sign(op), Const(b)]) == Result(m, a, op, b)
  {
    hide Line, Result, Verdict, Written, Proper, Grouped;
    var l := Plus(Lit(a));
    LitSays(m, 0, 0, a);
    PlusSays(m, 0, 0, Lit(a), 21);
    LitSays(m, 1, 1, b);
    BinSays(m, 0, 0, op, l, Lit(b));
    LineIs(m, Bin(op, l, Lit(b)));
    assert Written(l) + [Sign(op)] + Written(Lit(b)) == [Sign(Add), Const(a), Sign(op), Const(b)];
  }

  /** Complementing turns every bit over. */
  lemma {:induction false} ComplBits(a: int, k: nat)
    ensures BitOf(-a - 1, k) == 1 - BitOf(a, k)
    decreases k
  {
    assert (-a - 1) / 2 == -(a / 2) - 1 && (-a - 1) % 2 == 1 - a % 2;
    if k > 0 {
      ComplBits(a / 2, k - 1);
    }
  }

  lemma Parentheses(m: Shifter, a: int, op: Opr, b: int, op2: Opr, c: int)
    requires Binary(op) && Binary(op2)
    ensures Line(m, [Sign(LParen), Const(a), Sign(op), Const(b), Sign(RParen), Sign(op2), Const(c)])
         == Then(Two(m, a, op, b), x => Two(m, x, op2, c))
    ensures Line(m, [Const(a), Sign(op), Sign(LParen), Const(b), Sign(op2), Const(c), Sign(RParen)])
         == Then(Two(m, b, op2, c), y => Two(m, a, op, y))
  {
    hide Line, Arith, Two;
    TwoIs(m, a, op, b);
    TwoIs(m, b, op2, c);
    ParenLeft(m, a, op, b, op2, c);
    ParenRight(m, a, op, b, op2, c);
    var x, y := Two(m, a, op, b), Two(m, b, op2, c);
    if x.Good? { TwoIs(m, x.v, op2, c); }
    if y.Good? { TwoIs(m, a, op, y.v); }
  }

  lemma ParenLeft(m: Shifter, a: int, op: Opr, b: int, op2: Opr, c: int)
    requires IsPlain(op) && IsPlain(op2)
    ensures Line(m, [Sign(LParen), Const(a), Sign(op), Const(b), Sign(RParen), Sign(op2), Const(c)])
         == Then(Result(m, a, op, b), x => Result(m, x, op2, c))
  {
    hide Line, Result, Verdict, Written, Proper, Grouped;
    var l := Bin(op, Lit(a), Lit(b));
    PairSays(m, 1, 0, a, op, b);
    ParenSays(m, 0, 0, l);
    LitSays(m, 1, 1, c);
    BinSays(m, 0, 0, op2, Paren(l), Lit(c));
    LineIs(m, Bin(op2, Paren(l), Lit(c)));
    assert Written(Paren(l)) + [Sign(op2)] + Written(Lit(c))
        == [Sign(LParen), Const(a), Sign(op), Const(b), Sign(RParen), Sign(op2), Const(c)];
  }

  lemma ParenRight(m: Shifter, a: int, op: Opr, b: int, op2: Opr, c: int)
    requires IsPlain(op) && IsPlain(op2)
    ensures Line(m, [Const(a), Sign(op), Sign(LParen), Const(b), Sign(op2), Const(c), Sign(RParen)])
         == Then(Result(m, b, op2, c), y => Result(m, a, op, y))
  {
    hide Line, Result, Verdict, Written, Proper, Grouped;
    var r := Bin(op2, Lit(b), Lit(c));
    LitSays(m, 0, 0, a);
    PairSays(m, 2, 1, b, op2, c);
    ParenSays(m, 1, 1, r);
    BinSays(m, 0, 0, op, Lit(a), Paren(r));
    LineIs(m, Bin(op, Lit(a), Paren(r)));
    assert Written(Lit(a)) + [Sign(op)] + Written(Paren(r))
        == [Const(a), Sign(op), Sign(LParen), Const(b), Sign(op2), Const(c), Sign(RParen)];
  }

  /** An operator behind a colon, or in front of a question mark, belongs to its side
      of the conditional, unless it is a shift. */
  lemma Conditionals(m: Shifter, a: int, b: int, c: int, op: Opr, d: int)
    requires Binary(op)
    ensures Line(m, [Const(a), Sign(QMark), Const(b), Sign(Colon), Const(c), Sign(op), Const(d)]) ==
            if Shifts(op) then Two(m, if a != 0 then b else c, op, d)
            else Then(Two(m, c, op, d), y => Good(if a != 0 then b else y))
    ensures Line(m, [Const(a), Sign(op), Const(b), Sign(QMark), Const(c), Sign(Colon), Const(d)]) ==
            if Shifts(op) then Two(m, a, op, if b != 0 then c else d)
            else Then(Two(m, a, op, b), z => Good(if z != 0 then c else d))
  {
    hide Line, Two, Result;
    TwoIs(m, c, op, d);
    TwoIs(m, a, op, b);
    TwoIs(m, if a != 0 then b else c, op, d);
    TwoIs(m, a, op, if b != 0 then c else d);
    CondBefore(m, a, b, c, op, d);
    CondBehind(m, a, op, b, c, d);
  }

  lemma LitsSay(m: Shifter, d: nat, n: nat, a: int, b: int, c: int)
    requires d < 60 && n < 55
    ensures var e := Cond(Lit(a), Lit(b), Lit(c));
            && Stands(e, 6) && Verdict(m, d, n, e) == Good(if a != 0 then b else c)
            && Written(e) == [Const(a), Sign(QMark), Const(b), Sign(Colon), Const(c)]
  {
    hide Verdict, Written, Proper, Grouped;
    LitSays(m, d, n, a);
    LitSays(m, d + 1, n + 1, b);
    LitSays(m, d + 2, n + 2, c);
    CondSays(m, d, n, Lit(a), Lit(b), Lit(c));
  }

  lemma CondBefore(m: Shifter, a: int, b: int, c: int, op: Opr, d: int)
    requires IsPlain(op)
    ensures Line(m, [Const(a), Sign(QMark), Const(b), Sign(Colon), Const(c), Sign(op), Const(d)]) ==
            if Shifts(op) then Result(m, if a != 0 then b else c, op, d)
            else Then(Result(m, c, op, d), y => Good(if a != 0 then b else y))
  {
    hide Line, Result, Verdict, Written, Proper, Grouped;
    var ts := [Const(a), Sign(QMark), Const(b), Sign(Colon), Const(c), Sign(op), Const(d)];
    if Shifts(op) {
      var l := Cond(Lit(a), Lit(b), Lit(c));
      LitsSay(m, 0, 0, a, b, c);
      LitSays(m, 1, 1, d);
      BinSays(m, 0, 0, op, l, Lit(d));
      LineIs(m, Bin(op, l, Lit(d)));
      assert Written(l) + [Sign(op)] + Written(Lit(d)) == ts;
    } else {
      var r := Bin(op, Lit(c), Lit(d));
      LitSays(m, 0, 0, a);
      LitSays(m, 1, 1, b);
      PairSays(m, 2, 2, c, op, d);
      CondSays(m, 0, 0, Lit(a), Lit(b), r);
      LineIs(m, Cond(Lit(a), Lit(b), r));
      assert Written(Lit(a)) + [Sign(QMark)] + Written(Lit(b)) + [Sign(Colon)] + Written(r) == ts;
    }
  }

  lemma CondBehind(m: Shifter, a: int, op: Opr, b: int, c: int, d: int)
    requires IsPlain(op)
    ensures Line(m, [Const(a), Sign(op), Const(b), Sign(QMark), Const(c), Sign(Colon), Const(d)]) ==
            if Shifts(op) then Result(m, a, op, if b != 0 then c else d)
            else Then(Result(m, a, op, b), z => Good(if z != 0 then c else d))
  {
    hide Line, Result, Verdict, Written, Proper, Grouped;
    var ts := [Const(a), Sign(op), Const(b), Sign(QMark), Const(c), Sign(Colon), Const(d)];
    if Shifts(op) {
      var r := Cond(Lit(b), Lit(c), Lit(d));
      LitSays(m, 0, 0, a);
      LitsSay(m, 1, 1, b, c, d);
      BinSays(m, 0, 0, op, Lit(a), r);
      LineIs(m, Bin(op, Lit(a), r));
      assert Written(Lit(a)) + [Sign(op)] + Written(r) == ts;
    } else {
      var l := Bin(op, Lit(a), Lit(b));
      PairSays(m, 0, 0, a, op, b);
      LitSays(m, 1, 1, c);
      LitSays(m, 2, 2, d);
      CondSays(m, 0, 0, l, Lit(c), Lit(d));
      LineIs(m, Cond(l, Lit(c), Lit(d)));
      assert Written(l) + [Sign(QMark)] + Written(Lit(c)) + [Sign(Colon)] + Written(Lit(d)) == ts;
    }
  }

  /** The second of two conditionals belongs to the last side of the first. */
  lemma ConditionalsNest(m: Shifter, a: int, b: int, c: int, d: int, e: int)
    ensures Line(m, [Const(a), Sign(QMark), Const(b), Sign(Colon),
                     Const(c), Sign(QMark), Const(d), Sign(Colon), Const(e)])
         == Good(if a != 0 then b else if c != 0 then d else e)
  {
    hide Line, Verdict, Written, Proper, Grouped;
    var r := Cond(Lit(c), Lit(d), Lit(e));
    LitSays(m, 0, 0, a);
    LitSays(m, 1, 1, b);
    LitsSay(m, 2, 2, c, d, e);
    CondSays(m, 0, 0, Lit(a), Lit(b), r);
    LineIs(m, Cond(Lit(a), Lit(b), r));
    assert Written(Lit(a)) + [Sign(QMark)] + Written(Lit(b)) + [Sign(Colon)] + Written(r)
        == [Const(a), Sign(QMark), Const(b), Sign(Colon), Const(c), Sign(QMark), Const(d), Sign(Colon), Const(e)];
  }

  /** So a * b + c and c + a * b multiply first, and a << b + c shifts last. */
  lemma ProductsFirst(m: Shifter, a: int, b: int, c: int)
    ensures Line(m, [Const(a), Sign(Mult), Const(b), Sign(Add), Const(c)]) == Good(Short(Short(a * b) + c))
    ensures Line(m, [Const(c), Sign(Add), Const(a), Sign(Mult), Const(b)]) == Good(Short(c + Short(a * b)))
    ensures Line(m, [Const(a), Sign(LShift), Const(b), Sign(Add), Const(c)]) == Good(Short(m.left(a, Short(b + c))))
  {
    hide Line, Two, Short;
    Groups(m, a, Mult, b, Add, c);
    Groups(m, c, Add, a, Mult, b);
    Groups(m, a, LShift, b, Add, c);
    Sums(m, a, b);
    Sums(m, Short(a * b), c);
    Sums(m, c, Short(a * b));
    Sums(m, b, c);
    Sums(m, a, Short(b + c));
  }
}
