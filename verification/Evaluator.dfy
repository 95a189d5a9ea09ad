/** The constant evaluator as it runs: three arrays and their moving pointers. */
module Evaluator {
  import opened Options
  import opened Cexpr

  /** Slot 0 of each array is the bottom and never written. */
  class Evaluator {
    const oprstk: array<Opr>
    const opnstk: array<int>
    const pristk: array<int>
    var oprptr: nat
    var opnptr: nat
    var priptr: nat

    ghost predicate Valid()
      reads this, oprstk, pristk
    {
      && oprstk.Length == STKLEN && opnstk.Length == STKLEN && pristk.Length == STKLEN && opnstk != pristk
      && oprptr == priptr < STKLEN && opnptr < STKLEN
      && oprstk[0] == Eof && pristk[0] == 0
      && forall i :: 1 <= i <= oprptr ==> pristk[i] == Pri(oprstk[i])
    }

    ghost function S(): Stacks
      requires Valid()
      reads this, oprstk, opnstk, pristk
    {
      Stacks(oprstk[1..oprptr + 1], opnstk[1..opnptr + 1])
    }

    constructor ()
      ensures Valid() && S() == Stacks([], []) && fresh(oprstk) && fresh(opnstk) && fresh(pristk)
    {
      oprstk := new Opr[STKLEN](_ => Eof);
      opnstk := new int[STKLEN](_ => 0);
      pristk := new int[STKLEN](_ => 0);
      oprptr, opnptr, priptr := 0, 0, 0;
    }

    /** Replaces the top operands by one, and takes operators off. */
    method Replace(operators: nat, operands: nat, value: int)
      requires Valid() && operators <= oprptr && operands < opnptr
      modifies this, opnstk
      ensures Valid() && oprptr == old(oprptr) - operators
      ensures S() == Stacks(old(S()).opr[..old(oprptr) - operators], old(S()).opn[..old(opnptr) - operands - 1] + [value])
    {
      ghost var s := S();
      opnptr := opnptr - operands;
      opnstk[opnptr] := value;
      priptr := priptr - operators;
      oprptr := oprptr - operators;
      assert oprstk[1..oprptr + 1] == s.opr[..oprptr];
      assert opnstk[1..opnptr + 1] == s.opn[..opnptr - 1] + [value];
    }

    /** Takes one operator off, as the body of the loop in stkop does. */
    method ApplyTop(m: Shifter) returns (why: Option<Trouble>)
      requires Valid() && oprptr > 0 && Balanced(S(), false) && oprstk[oprptr] != LParen
      modifies this, opnstk
      ensures Valid() && oprptr <= old(oprptr)
      ensures var u := old(Unstack(m, S()));
              if u.Good? then why.None? && S() == u.v else why == Some(u.why)
    {
      hide Arith, Prefix, Balanced;
      ghost var s := S();
      assert Top(s) == oprstk[oprptr];
      EnoughOperands(s);
      UnstackParts(m, s);
      why := None;
      var opr := oprstk[oprptr];
      var op1 := opnstk[opnptr];
      if opr.QMark? {
        why := Some(Syntax);
      } else if opr.Colon? {
        if oprstk[oprptr - 1] != QMark {
          why := Some(Syntax);
        } else {
          assert s.opr[|s.opr| - 2] == oprstk[oprptr - 1];
          Replace(2, 2, if opnstk[opnptr - 2] != 0 then opnstk[opnptr - 1] else op1);
        }
      } else if IsBinary(opr) {
        if Divides(opr, op1) {
          why := Some(ZeroDivide);
        } else {
          Replace(1, 1, Arith(m, opr, opnstk[opnptr - 1], op1));
        }
      } else {
        Replace(1, 0, if IsPrefix(opr) then Prefix(opr, op1) else op1);
      }
    }

    method PushOperator(op: Opr) returns (why: Option<Trouble>)
      requires Valid()
      modifies this, oprstk, pristk
      ensures Valid()
      ensures var o := old(Stack(S(), op));
              if o.Good? then why.None? && S() == o.v else why == Some(o.why)
    {
      if priptr >= STKLEN - 1 {
        return Some(Overflow);
      }
      ghost var s := S();
      oprptr := oprptr + 1;
      priptr := priptr + 1;
      oprstk[oprptr] := op;
      pristk[priptr] := Pri(op);
      assert S().opr == s.opr + [op] && S().opn == s.opn;
      why := None;
    }

    method PopOperator()
      requires Valid() && oprptr > 0
      modifies this
      ensures Valid() && S() == old(S()).(opr := old(S()).opr[..|old(S()).opr| - 1])
    {
      ghost var s := S();
      oprptr := oprptr - 1;
      priptr := priptr - 1;
      assert S().opr == s.opr[..|s.opr| - 1];
    }

    /** stkop: applies the operators that outrank this one, then stacks it. */
    method StkOp(m: Shifter, op: Opr) returns (why: Option<Trouble>)
      requires Valid() && (Balanced(S(), false) || Pri(op) >= 20)
      modifies this, oprstk, opnstk, pristk
      ensures Valid()
      ensures var o := old(Cexpr.StkOp(m, S(), op));
              if o.Good? then why.None? && S() == o.v else why == Some(o.why)
    {
      hide Balanced, Unstack, Cexpr.StkOp, Stack;
      why := None;
      while Pri(op) < pristk[priptr]
        invariant Valid() && why.None? && (Balanced(S(), false) || Pri(op) >= 20)
        invariant Cexpr.StkOp(m, S(), op) == old(Cexpr.StkOp(m, S(), op))
        decreases oprptr
      {
        StkOpMeaning(m, S(), op);
        assert Top(S()) == oprstk[oprptr];
        if oprstk[oprptr] == LParen {
          if op == RParen {
            PopOperator();
            return;
          }
          break;
        }
        ghost var u := Unstack(m, S());
        why := ApplyTop(m);
        if why.Some? {
          return;
        }
      }
      StkOpMeaning(m, S(), op);
      why := PushOperator(op);
    }

    method PushOperand(v: int)
      requires Valid() && opnptr < STKLEN - 1
      modifies this, opnstk
      ensures Valid() && S() == Pushed(old(S()), v)
    {
      ghost var s := S();
      opnptr := opnptr + 1;
      opnstk[opnptr] := v;
      assert S().opr == s.opr && S().opn == s.opn + [v];
    }

    /** An operator or a parenthesis; minus signs where an operand is due negate. */
    method Operator(m: Shifter, lop: bool, sign: Lexed) returns (lop': bool, why: Option<Trouble>)
      requires Valid() && Balanced(S(), lop) && !(sign.Add? && lop)
      modifies this, oprstk, opnstk, pristk
      ensures Valid() && (why.None? ==> Balanced(S(), lop'))
      ensures var op := if sign.Sub? && lop then Neg else sign;
              if lop != Opens(op) then why == Some(Syntax)
              else
                var o := old(Cexpr.StkOp(m, S(), op));
                if o.Good? then why.None? && S() == o.v && lop' == !op.RParen? else why == Some(o.why)
    {
      hide Cexpr.StkOp;
      var op := if sign.Sub? && lop then Neg else sign;
      if lop != Opens(op) {
        return lop, Some(Syntax);
      }
      why := StkOp(m, op);
      lop' := !op.RParen?;
    }

    /** cexpr: alternates between operands and operators up to the end of the line.
      It stops where the source would store past the operand array. */
    method Run(m: Shifter, ts: seq<Token>) returns (answer: Outcome<int>)
      requires Valid()
      modifies this, oprstk, opnstk, pristk
      ensures answer == Answer(m, ts)
    {
      hide Balanced, Cexpr.StkOp, Scan, Finish;
      oprptr, opnptr, priptr := 0, 0, 0;
      assert S() == Stacks([], []);
      var lop := true;
      var i := 0;
      Start();
      while i < |ts| && !ts[i].NewLine?
        invariant i <= |ts| && Valid() && Balanced(S(), lop)
        invariant Scan(m, S(), lop, ts[i..]) == Answer(m, ts)
        decreases |ts| - i
      {
        ScanMeaning(m, S(), lop, ts[i..]);
        assert ts[i..][1..] == ts[i + 1..];
        match ts[i] {
          case Unknown => return Bad(Syntax);
          case Const(v) =>
            if !lop {
              return Bad(Syntax);
            }
            if opnptr >= STKLEN {
              return Bad(Overflow);
            }
            if opnptr >= STKLEN - 1 {
              return Bad(Overrun);  // the source's check lets this store through
            }
            lop := false;
            PushOperand(v);
          case Sign(sign) =>
            if !(sign.Add? && lop) {
              var why;
              lop, why := Operator(m, lop, sign);
              if why.Some? {
                return Bad(why.value);
              }
            }
        }
        i := i + 1;
      }
      ScanMeaning(m, S(), lop, ts[i..]);
      FinishMeaning(m, S(), lop);
      if lop {
        return Bad(Syntax);
      }
      var why := StkOp(m, Eof);
      if why.Some? {
        return Bad(why.value);
      }
      return if opnptr == 1 then Good(opnstk[1]) else Bad(Syntax);
    }
  }

  lemma Start()
    ensures Balanced(Stacks([], []), true)
  {
  }

  /** One token. */
  lemma ScanMeaning(m: Shifter, s: Stacks, lop: bool, ts: seq<Token>)
    requires Balanced(s, lop)
    ensures lop && ts != [] && ts[0].Const? ==> Balanced(Pushed(s, ts[0].v), false)
    ensures Scan(m, s, lop, ts) ==
            if ts == [] || ts[0].NewLine? then Finish(m, s, lop)
            else match ts[0]
              case Unknown => Bad(Syntax)
              case Const(v) =>
                if !lop then Bad(Syntax)
                else if |s.opn| >= STKLEN then Bad(Overflow)
                else if |s.opn| >= STKLEN - 1 then Bad(Overrun)
                else
                  assert Balanced(Pushed(s, v), false);
                  Scan(m, Pushed(s, v), false, ts[1..])
              case Sign(sign) =>
                if sign.Add? && lop then Scan(m, s, lop, ts[1..])
                else
                  var op := if sign.Sub? && lop then Neg else sign;
                  if lop != Opens(op) then Bad(Syntax)
                  else
                    var o := Cexpr.StkOp(m, s, op);
                    if o.Bad? then Bad(o.why) else Scan(m, o.v, !op.RParen?, ts[1..])
  {
  }

  lemma FinishMeaning(m: Shifter, s: Stacks, lop: bool)
    requires Balanced(s, lop)
    ensures Finish(m, s, lop) ==
            if lop then Bad(Syntax)
            else
              var o := Cexpr.StkOp(m, s, Eof);
              if o.Bad? then Bad(o.why) else if |o.v.opn| == 1 then Good(o.v.opn[0]) else Bad(Syntax)
  {
  }

  lemma StkOpMeaning(m: Shifter, s: Stacks, op: Opr)
    requires Balanced(s, false) || Pri(op) >= 20
    ensures Cexpr.StkOp(m, s, op) ==
            if s.opr == [] || Pri(op) >= Pri(Top(s)) then Stack(s, op)
            else if Top(s).LParen? then
              if op.RParen? then Good(s.(opr := s.opr[..|s.opr| - 1])) else Stack(s, op)
            else if Unstack(m, s).Bad? then Unstack(m, s)
            else Cexpr.StkOp(m, Unstack(m, s).v, op)
  {
  }

  lemma UnstackParts(m: Shifter, s: Stacks)
    requires s.opr != [] && Balanced(s, false) && !Top(s).LParen?
    requires |s.opn| >= 1 && (IsBinary(Top(s)) ==> |s.opn| >= 2)
    requires Top(s).Colon? && |s.opr| > 1 && s.opr[|s.opr| - 2].QMark? ==> |s.opn| >= 3
    ensures var k, n, op := |s.opr|, |s.opn|, Top(s);
            Unstack(m, s) ==
            if op.QMark? then Bad(Syntax)
            else if op.Colon? then
              if k < 2 || !s.opr[k - 2].QMark? then Bad(Syntax)
              else Good(Stacks(s.opr[..k - 2], s.opn[..n - 3] + [if s.opn[n - 3] != 0 then s.opn[n - 2] else s.opn[n - 1]]))
            else if IsBinary(op) then
              if Divides(op, s.opn[n - 1]) then Bad(ZeroDivide)
              else Good(Stacks(s.opr[..k - 1], s.opn[..n - 2] + [Arith(m, op, s.opn[n - 2], s.opn[n - 1])]))
            else Good(Stacks(s.opr[..k - 1], s.opn[..n - 1] + [if IsPrefix(op) then Prefix(op, s.opn[n - 1]) else s.opn[n - 1]]))
  {
    hide Arith, Prefix;
    var k, n := |s.opr|, |s.opn|;
    assert s.opn == s.opn[..n - 1] + [s.opn[n - 1]];
    if k >= 2 {
      assert s.opr[..k - 1][..k - 2] == s.opr[..k - 2];
    }
  }

  lemma EnoughOperands(s: Stacks)
    requires s.opr != [] && Balanced(s, false)
    ensures |s.opn| >= 1
    ensures IsBinary(Top(s)) ==> |s.opn| >= 2
    ensures Top(s).Colon? && |s.opr| > 1 && s.opr[|s.opr| - 2].QMark? ==> |s.opn| >= 3
  {
    var rest := s.opr[..|s.opr| - 1];
    if rest != [] {
      assert rest[|rest| - 1] == s.opr[|s.opr| - 2];
      assert Binaries(rest) == Binaries(rest[..|rest| - 1]) + if IsBinary(rest[|rest| - 1]) then 1 else 0;
    }
  }
}
