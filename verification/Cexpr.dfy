/** The preprocessor's constant expressions: two stacks and a table of priorities. */
module Cexpr {
  import opened Arithmetic
  import opened Options
  import opened Bits
  import opened Words

  datatype Opr =
    | Eof | Sub | Add | Not | Neg | LParen | RParen | QMark | Colon | Or | And | Xor
    | Equal | NEqual | Less | LsEqual | Great | GrEqual | LShift | RShift | Mult | Div | Mod | Compl

  /** The opinfo table: priorities. */
  function Pri(op: Opr): nat {
    match op
    case Eof => 0
    case RParen => 2
    case LShift | RShift => 4
    case QMark | Colon => 6
    case Or | Xor => 8
    case And => 10
    case Equal | NEqual => 12
    case Less | LsEqual | Great | GrEqual => 14
    case Sub | Add => 16
    case Mult | Div | Mod => 18
    case Not | Neg | Compl => 20
    case LParen => 22
  }

  predicate IsPrefix(op: Opr) { op.Not? || op.Neg? || op.Compl? }

  /** The opinfo table: the OPBIN mark. */
  predicate IsBinary(op: Opr) {
    !IsPrefix(op) && !op.Eof? && !op.LParen? && !op.RParen?
  }

  /** Binary operators with a value of their own. */
  predicate IsPlain(op: Opr) { IsBinary(op) && !op.QMark? && !op.Colon? }

  /** What the machine makes of shifts, whose counts may be out of range. */
  datatype Shifter = Shifter(left: (int, int) -> int, right: (int, int) -> int)

  /** Division cuts towards zero. */
  function Quotient(a: int, b: int): int
    requires b != 0
  {
    if a >= 0 then a / b else -(-a / b)
  }

  function Truth(b: bool): int { if b then 1 else 0 }

  predicate Divides(op: Opr, b: int) { (op.Div? || op.Mod?) && b == 0 }

  function Arith(m: Shifter, op: Opr, a: int, b: int): int
    requires IsPlain(op) && !Divides(op, b)
  {
    match op
    case Add => Short(a + b)
    case Sub => Short(a - b)
    case Mult => Short(a * b)
    case Div => Short(Quotient(a, b))
    case Mod => Short(a - b * Quotient(a, b))
    case And => Bitwise(BAnd, a, b)
    case Or => Bitwise(BOr, a, b)
    case Xor => Bitwise(BXor, a, b)
    case Equal => Truth(a == b)
    case NEqual => Truth(a != b)
    case Less => Truth(a < b)
    case LsEqual => Truth(a <= b)
    case Great => Truth(a > b)
    case GrEqual => Truth(a >= b)
    case LShift => Short(m.left(a, b))
    case RShift => Short(m.right(a, b))
  }

  function Prefix(op: Opr, a: int): int
    requires IsPrefix(op)
  {
    match op
    case Neg => Short(-a)
    case Not => Truth(a == 0)
    case Compl => -a - 1
  }

  // ----- expressions -----

  datatype Expr =
    | Lit(v: int)
    | Paren(e: Expr)
    | Plus(e: Expr)                          // unary plus
    | Un(op: Opr, e: Expr)
    | Bin(op: Opr, l: Expr, r: Expr)
    | Cond(c: Expr, a: Expr, b: Expr)

  /** The value of a tree.  Every part is evaluated, so a zero divisor anywhere is fatal. */
  function Eval(m: Shifter, e: Expr): Option<int>
    requires Proper(e)
  {
    match e
    case Lit(v) => Some(v)
    case Paren(e1) => Eval(m, e1)
    case Plus(e1) => Eval(m, e1)
    case Un(op, e1) =>
      var v := Eval(m, e1);
      if v.None? then None else Some(Prefix(op, v.value))
    case Bin(op, l, r) =>
      var x, y := Eval(m, l), Eval(m, r);
      if x.None? || y.None? || Divides(op, y.value) then None else Some(Arith(m, op, x.value, y.value))
    case Cond(c, a, b) =>
      var z, x, y := Eval(m, c), Eval(m, a), Eval(m, b);
      if z.None? || x.None? || y.None? then None else Some(if z.value != 0 then x.value else y.value)
  }

  predicate Proper(e: Expr) {
    match e
    case Lit(_) => true
    case Paren(e1) => Proper(e1)
    case Plus(e1) => Proper(e1)
    case Un(op, e1) => IsPrefix(op) && Proper(e1)
    case Bin(op, l, r) => IsPlain(op) && Proper(l) && Proper(r)
    case Cond(c, a, b) => Proper(c) && Proper(a) && Proper(b)
  }

  /** Priority of the root; 21 for what cannot be taken apart. */
  function Level(e: Expr): nat {
    match e
    case Lit(_) => 21
    case Paren(_) => 21
    case Plus(e1) => Level(e1)
    case Un(_, _) => 20
    case Bin(op, _, _) => Pri(op)
    case Cond(_, _, _) => 6
  }

  /** The written form needs no more parentheses.  Equal priorities group to the right. */
  predicate Grouped(e: Expr) {
    match e
    case Lit(_) => true
    case Paren(e1) => Grouped(e1)
    case Plus(e1) => Grouped(e1)
    case Un(op, e1) => IsPrefix(op) && Grouped(e1) && Level(e1) >= 20
    case Bin(op, l, r) => IsPlain(op) && Grouped(l) && Grouped(r) && Level(l) > Pri(op) && Level(r) >= Pri(op)
    case Cond(c, a, b) => Grouped(c) && Grouped(a) && Grouped(b) && Level(c) > 6 && Level(a) > 6 && Level(b) >= 6
  }

  /** Operators pending at once while the expression is read. */
  function Need(e: Expr): nat {
    match e
    case Lit(_) => 0
    case Paren(e1) => Need(e1) + 1
    case Plus(e1) => Need(e1)
    case Un(_, e1) => Need(e1) + 1
    case Bin(_, l, r) => Max(Need(l), Need(r) + 1)
    case Cond(c, a, b) => Max(Need(c), Max(Need(a) + 1, Need(b) + 2))
  }

  /** Operands held at once while the expression is read. */
  function Peak(e: Expr): nat {
    match e
    case Lit(_) => 1
    case Paren(e1) => Peak(e1)
    case Plus(e1) => Peak(e1)
    case Un(_, e1) => Peak(e1)
    case Bin(_, l, r) => Max(Peak(l), Peak(r) + 1)
    case Cond(c, a, b) => Max(Peak(c), Max(Peak(a) + 1, Peak(b) + 2))
  }

  // ----- tokens -----

  /** Signs the scanner delivers. */
  type Lexed = op: Opr | !op.Neg? && !op.Eof? witness Sub

  datatype Token = Const(v: int) | Sign(op: Lexed) | NewLine | Unknown

  function Written(e: Expr): seq<Token>
    requires Proper(e)
  {
    match e
    case Lit(v) => [Const(v)]
    case Paren(e1) => [Sign(LParen)] + Written(e1) + [Sign(RParen)]
    case Plus(e1) => [Sign(Add)] + Written(e1)
    case Un(op, e1) => [Sign(if op.Neg? then Sub else op)] + Written(e1)
    case Bin(op, l, r) => Written(l) + [Sign(op)] + Written(r)
    case Cond(c, a, b) => Written(c) + [Sign(QMark)] + Written(a) + [Sign(Colon)] + Written(b)
  }

  /** A tree with the parentheses its priorities require, and no others. */
  function Wrapped(e: Expr, level: nat): Expr {
    if Level(e) >= level then e else Paren(e)
  }

  function Dressed(e: Expr): Expr {
    match e
    case Lit(v) => e
    case Paren(e1) => Dressed(e1)
    case Plus(e1) => Plus(Dressed(e1))
    case Un(op, e1) => Un(op, Wrapped(Dressed(e1), 20))
    case Bin(op, l, r) => Bin(op, Wrapped(Dressed(l), Pri(op) + 1), Wrapped(Dressed(r), Pri(op)))
    case Cond(c, a, b) => Cond(Wrapped(Dressed(c), 7), Wrapped(Dressed(a), 7), Wrapped(Dressed(b), 6))
  }

  lemma {:induction false} DressedGrouped(m: Shifter, e: Expr)
    requires Proper(e)
    ensures Grouped(Dressed(e)) && Proper(Dressed(e)) && Eval(m, Dressed(e)) == Eval(m, e)
  {
    hide Arith, Prefix;
    match e
    case Lit(_) =>
    case Paren(e1) => DressedGrouped(m, e1);
    case Plus(e1) => DressedGrouped(m, e1);
    case Un(_, e1) => DressedGrouped(m, e1);
    case Bin(_, l, r) =>
      DressedGrouped(m, l);
      DressedGrouped(m, r);
    case Cond(c, a, b) =>
      DressedGrouped(m, c);
      DressedGrouped(m, a);
      DressedGrouped(m, b);
  }

  // ----- the two stacks -----

  const STKLEN: nat := 64

  datatype Stacks = Stacks(opr: seq<Opr>, opn: seq<int>)

  /** Overrun: the operand would go into the slot after the array's last. */
  datatype Trouble = Syntax | Overflow | Overrun | ZeroDivide

  datatype Outcome<T> = Good(v: T) | Bad(why: Trouble)

  function Binaries(opr: seq<Opr>): nat {
    if opr == [] then 0 else Binaries(opr[..|opr| - 1]) + if IsBinary(opr[|opr| - 1]) then 1 else 0
  }

  /** One operand more than there are binary operators, or as many when the
      last thing read was an operator. */
  predicate Balanced(s: Stacks, lop: bool) {
    |s.opn| == Binaries(s.opr) + if lop then 0 else 1
  }

  function Top(s: Stacks): Opr
    requires s.opr != []
  {
    s.opr[|s.opr| - 1]
  }

  /** Takes the operator off the top and applies it. */
  function Unstack(m: Shifter, s: Stacks): (o: Outcome<Stacks>)
    requires s.opr != [] && Balanced(s, false) && !Top(s).LParen?
    ensures o.Good? ==> Balanced(o.v, false) && |o.v.opr| < |s.opr|
  {
    var op, rest, n := Top(s), s.opr[..|s.opr| - 1], |s.opn|;
    if IsPrefix(op) then Good(Stacks(rest, s.opn[..n - 1] + [Prefix(op, s.opn[n - 1])]))
    else if !IsBinary(op) then Good(Stacks(rest, s.opn))
    else if op.QMark? then Bad(Syntax)
    else if op.Colon? then
      if rest == [] || !rest[|rest| - 1].QMark? then Bad(Syntax)
      else
        assert Binaries(rest) == Binaries(rest[..|rest| - 1]) + 1;
        Good(Stacks(rest[..|rest| - 1], s.opn[..n - 3] + [if s.opn[n - 3] != 0 then s.opn[n - 2] else s.opn[n - 1]]))
    else if Divides(op, s.opn[n - 1]) then Bad(ZeroDivide)
    else Good(Stacks(rest, s.opn[..n - 2] + [Arith(m, op, s.opn[n - 2], s.opn[n - 1])]))
  }

  function Stack(s: Stacks, op: Opr): (o: Outcome<Stacks>) {
    if |s.opr| >= STKLEN - 1 then Bad(Overflow) else Good(s.(opr := s.opr + [op]))
  }

  /** stkop */
  function StkOp(m: Shifter, s: Stacks, op: Opr): (o: Outcome<Stacks>)
    requires Balanced(s, false) || Pri(op) >= 20
    ensures o.Good? && Balanced(s, false) && IsBinary(op) ==> Balanced(o.v, true)
    ensures o.Good? && Balanced(s, false) && !IsBinary(op) ==> Balanced(o.v, false)
    ensures o.Good? && !IsBinary(op) && Balanced(s, true) && Pri(op) >= 20 ==> Balanced(o.v, true)
    decreases |s.opr|
  {
    if s.opr == [] || Pri(op) >= Pri(Top(s)) then Stack(s, op)
    else if Top(s).LParen? then
      if op.RParen? then Good(s.(opr := s.opr[..|s.opr| - 1])) else Stack(s, op)
    else
      var u := Unstack(m, s);
      if u.Bad? then u else StkOp(m, u.v, op)
  }

  // ----- the scan -----

  /** cexpr, from any point on; lop says that the last token was an operator. */
  function Scan(m: Shifter, s: Stacks, lop: bool, ts: seq<Token>): Outcome<int>
    requires Balanced(s, lop)
    decreases |ts|
  {
    if ts == [] || ts[0].NewLine? then Finish(m, s, lop)
    else match ts[0]
      case Unknown => Bad(Syntax)
      case Const(v) =>
        if !lop then Bad(Syntax)
        else if |s.opn| >= STKLEN then Bad(Overflow)
        else if |s.opn| >= STKLEN - 1 then Bad(Overrun)
        else Scan(m, Pushed(s, v), false, ts[1..])
      case Sign(sign) =>
        if sign.Add? && lop then Scan(m, s, lop, ts[1..])
        else
          var op := if sign.Sub? && lop then Neg else sign;
          if lop != Opens(op) then Bad(Syntax)
          else
            var o := StkOp(m, s, op);
            if o.Bad? then Bad(o.why) else Scan(m, o.v, !op.RParen?, ts[1..])
  }

  /** Signs that stand where an operand may begin. */
  predicate Opens(op: Opr) { IsPrefix(op) || op.LParen? }

  function Pushed(s: Stacks, v: int): Stacks { s.(opn := s.opn + [v]) }

  function Finish(m: Shifter, s: Stacks, lop: bool): Outcome<int>
    requires Balanced(s, lop)
  {
    if lop then Bad(Syntax)
    else
      var o := StkOp(m, s, Eof);
      if o.Bad? then Bad(o.why)
      else if |o.v.opn| == 1 then Good(o.v.opn[0])
      else Bad(Syntax)
  }

  /** What cexpr makes of a line. */
  function Answer(m: Shifter, ts: seq<Token>): Outcome<int> {
    Scan(m, Stacks([], []), true, ts)
  }

  // ----- reading a written expression -----

  /** Operators of this level leave the stack as it is. */
  predicate Calm(s: Stacks, level: nat) {
    s.opr != [] ==> Top(s).LParen? || Pri(Top(s)) <= level
  }

  /** To an operator below the level, s' is as good as t. */
  ghost predicate Settles(m: Shifter, s': Stacks, level: nat, t: Stacks) {
    && Balanced(s', false) && Balanced(t, false)
    && forall op :: Pri(op) < level ==> StkOp(m, s', op) == StkOp(m, t, op)
  }

  lemma {:induction false} BinariesAtMost(opr: seq<Opr>)
    ensures Binaries(opr) <= |opr|
  {
    if opr != [] {
      BinariesAtMost(opr[..|opr| - 1]);
    }
  }

  lemma Stacked(m: Shifter, s: Stacks, op: Opr)
    requires Balanced(s, false) || Pri(op) >= 20
    requires Calm(s, Pri(op)) && !op.RParen?
    ensures StkOp(m, s, op) == Stack(s, op)
    ensures Stack(s, op).Good? ==> Top(Stack(s, op).v) == op && Calm(Stack(s, op).v, Pri(op))
  {
  }

  /** An operator on top of the stack. */
  function Under(s: Stacks, op: Opr): Stacks { s.(opr := s.opr + [op]) }

  lemma UnderTop(s: Stacks, op: Opr)
    ensures Top(Under(s, op)) == op && Under(s, op).opr[..|s.opr|] == s.opr
    ensures Binaries(Under(s, op).opr) == Binaries(s.opr) + if IsBinary(op) then 1 else 0
  {
    assert (s.opr + [op])[..|s.opr|] == s.opr;
  }

  lemma ScanOperand(m: Shifter, s: Stacks, v: int, rest: seq<Token>)
    requires Balanced(s, true) && |s.opr| < STKLEN
    ensures Balanced(Pushed(s, v), false)
    ensures Scan(m, s, true, [Const(v)] + rest) ==
            if |s.opn| >= STKLEN - 1 then Bad(Overrun) else Scan(m, Pushed(s, v), false, rest)
  {
    BinariesAtMost(s.opr);
    assert ([Const(v)] + rest)[1..] == rest;
  }

  lemma ScanOpening(m: Shifter, s: Stacks, op: Opr, rest: seq<Token>)
    requires Balanced(s, true) && Opens(op) && Calm(s, 20)
    ensures Balanced(Under(s, op), true) && Calm(Under(s, op), 20)
    ensures Scan(m, s, true, [Sign(if op.Neg? then Sub else op)] + rest) ==
            if |s.opr| >= STKLEN - 1 then Bad(Overflow) else Scan(m, Under(s, op), true, rest)
  {
    UnderTop(s, op);
    Stacked(m, s, op);
    assert ([Sign(if op.Neg? then Sub else op)] + rest)[1..] == rest;
  }

  lemma ScanInfix(m: Shifter, s: Stacks, op: Opr, rest: seq<Token>)
    requires Balanced(s, false) && IsBinary(op)
    ensures var o := StkOp(m, s, op);
            Scan(m, s, false, [Sign(op)] + rest) == if o.Bad? then Bad(o.why) else Scan(m, o.v, true, rest)
  {
    hide StkOp;
    assert ([Sign(op)] + rest)[1..] == rest;
  }

  lemma ScanClosing(m: Shifter, s: Stacks, rest: seq<Token>)
    requires Balanced(s, false)
    ensures var o := StkOp(m, s, RParen);
            Scan(m, s, false, [Sign(RParen)] + rest) == if o.Bad? then Bad(o.why) else Scan(m, o.v, false, rest)
  {
    hide StkOp;
    assert ([Sign(RParen)] + rest)[1..] == rest;
  }

  lemma BinWritten(op: Opr, l: Expr, r: Expr, rest: seq<Token>)
    requires Proper(Bin(op, l, r))
    ensures Written(Bin(op, l, r)) + rest == Written(l) + ([Sign(op)] + (Written(r) + rest))
  {
  }

  lemma CondWritten(c: Expr, a: Expr, b: Expr, rest: seq<Token>)
    requires Proper(Cond(c, a, b))
    ensures Written(Cond(c, a, b)) + rest
         == Written(c) + ([Sign(QMark)] + (Written(a) + ([Sign(Colon)] + (Written(b) + rest))))
  {
  }

  lemma ParenWritten(e: Expr, rest: seq<Token>)
    requires Proper(e)
    ensures Written(Paren(e)) + rest == [Sign(LParen)] + (Written(e) + ([Sign(RParen)] + rest))
  {
  }

  lemma UnWritten(op: Opr, e: Expr, rest: seq<Token>)
    requires Proper(Un(op, e))
    ensures Written(Un(op, e)) + rest == [Sign(if op.Neg? then Sub else op)] + (Written(e) + rest)
  {
  }

  lemma PlusWritten(e: Expr, rest: seq<Token>)
    requires Proper(e)
    ensures Written(Plus(e)) + rest == [Sign(Add)] + (Written(e) + rest)
    ensures Written(Plus(e)) + rest != []
    ensures (Written(Plus(e)) + rest)[1..] == Written(e) + rest
  {
  }

  /** Can e be read on top of s: is there room, and no zero divisor? */
  predicate Sound(m: Shifter, s: Stacks, e: Expr)
    requires Proper(e)
  {
    Eval(m, e).Some? && |s.opr| + Need(e) < STKLEN && |s.opn| + Peak(e) < STKLEN
  }

  /** The value of e, or the first trouble met when it is read with d operators
      and n operands already on the stacks. */
  function Verdict(m: Shifter, d: nat, n: nat, e: Expr): Outcome<int>
    requires Proper(e)
    decreases e
  {
    match e
    case Lit(v) => if n >= STKLEN - 1 then Bad(Overrun) else Good(v)
    case Paren(e1) => if d >= STKLEN - 1 then Bad(Overflow) else Verdict(m, d + 1, n, e1)
    case Plus(e1) => Verdict(m, d, n, e1)
    case Un(op, e1) =>
      if d >= STKLEN - 1 then Bad(Overflow)
      else
        var x := Verdict(m, d + 1, n, e1);
        if x.Bad? then x else Good(Prefix(op, x.v))
    case Bin(op, l, r) =>
      var x := Verdict(m, d, n, l);
      if x.Bad? then x
      else if d >= STKLEN - 1 then Bad(Overflow)
      else
        var y := Verdict(m, d + 1, n + 1, r);
        if y.Bad? then y
        else if Divides(op, y.v) then Bad(ZeroDivide)
        else Good(Arith(m, op, x.v, y.v))
    case Cond(c, a, b) =>
      var z := Verdict(m, d, n, c);
      if z.Bad? then z
      else if d >= STKLEN - 1 then Bad(Overflow)
      else
        var x := Verdict(m, d + 1, n + 1, a);
        if x.Bad? then x
        else if d + 1 >= STKLEN - 1 then Bad(Overflow)
        else
          var y := Verdict(m, d + 2, n + 2, b);
          if y.Bad? then y else Good(if z.v != 0 then x.v else y.v)
  }

  /** The verdict is good exactly when both stacks have room and nothing is divided
      by zero, and is then the value of the tree.  An overrun means that the operand
      array has too few slots, and is the verdict if only that is wrong. */
  predicate Foretold(m: Shifter, d: nat, n: nat, e: Expr)
    requires Proper(e)
  {
    var w := Verdict(m, d, n, e);
    && (w.Good? <==> Eval(m, e).Some? && d + Need(e) < STKLEN && n + Peak(e) < STKLEN)
    && (w.Good? ==> w.v == Eval(m, e).value)
    && (w == Bad(Overrun) ==> n + Peak(e) >= STKLEN)
    && (Eval(m, e).Some? && d + Need(e) < STKLEN && n + Peak(e) >= STKLEN ==> w == Bad(Overrun))
  }

  lemma {:induction false} VerdictMeaning(m: Shifter, d: nat, n: nat, e: Expr)
    requires Proper(e) && d < STKLEN
    ensures Foretold(m, d, n, e)
    decreases e
  {
    hide Foretold;
    match e
    case Lit(_) => ForetoldOne(m, d, n, e);
    case Paren(e1) =>
      if d < STKLEN - 1 { VerdictMeaning(m, d + 1, n, e1); }
      ForetoldOne(m, d, n, e);
    case Plus(e1) =>
      VerdictMeaning(m, d, n, e1);
      ForetoldOne(m, d, n, e);
    case Un(_, e1) =>
      if d < STKLEN - 1 { VerdictMeaning(m, d + 1, n, e1); }
      ForetoldOne(m, d, n, e);
    case Bin(op, l, r) =>
      VerdictMeaning(m, d, n, l);
      if d < STKLEN - 1 { VerdictMeaning(m, d + 1, n + 1, r); }
      ForetoldBin(m, d, n, op, l, r);
    case Cond(c, a, b) =>
      VerdictMeaning(m, d, n, c);
      if d < STKLEN - 1 { VerdictMeaning(m, d + 1, n + 1, a); }
      if d < STKLEN - 2 { VerdictMeaning(m, d + 2, n + 2, b); }
      ForetoldCond(m, d, n, c, a, b);
  }

  lemma ForetoldOne(m: Shifter, d: nat, n: nat, e: Expr)
    requires Proper(e) && d < STKLEN && !e.Bin? && !e.Cond?
    requires e.Plus? ==> Foretold(m, d, n, e.e)
    requires (e.Paren? || e.Un?) && d < STKLEN - 1 ==> Foretold(m, d + 1, n, e.e)
    ensures Foretold(m, d, n, e)
  {
    hide Prefix;
  }

  lemma ForetoldBin(m: Shifter, d: nat, n: nat, op: Opr, l: Expr, r: Expr)
    requires Proper(Bin(op, l, r)) && d < STKLEN && Foretold(m, d, n, l)
    requires d < STKLEN - 1 ==> Foretold(m, d + 1, n + 1, r)
    ensures Foretold(m, d, n, Bin(op, l, r))
  {
    hide Arith;
  }

  lemma ForetoldCond(m: Shifter, d: nat, n: nat, c: Expr, a: Expr, b: Expr)
    requires Proper(Cond(c, a, b)) && d < STKLEN && Foretold(m, d, n, c)
    requires d < STKLEN - 1 ==> Foretold(m, d + 1, n + 1, a)
    requires d < STKLEN - 2 ==> Foretold(m, d + 2, n + 2, b)
    ensures Foretold(m, d, n, Cond(c, a, b))
  {
  }

  /** The verdict on e where the stacks are s. */
  function At(m: Shifter, s: Stacks, e: Expr): Outcome<int>
    requires Proper(e)
  {
    Verdict(m, |s.opr|, |s.opn|, e)
  }

  lemma SoundMeaning(m: Shifter, s: Stacks, e: Expr)
    requires Proper(e) && |s.opr| < STKLEN
    ensures Sound(m, s, e) <==> At(m, s, e).Good?
    ensures Sound(m, s, e) ==> Eval(m, e) == Some(At(m, s, e).v)
  {
    VerdictMeaning(m, |s.opr|, |s.opn|, e);
  }

  /** Where an expression of e's level may be read. */
  predicate Expecting(s: Stacks, e: Expr) {
    Proper(e) && Grouped(e) && Balanced(s, true) && Calm(s, Level(e)) && |s.opr| < STKLEN
  }

  lemma LevelAtMost(e: Expr)
    requires Proper(e)
    ensures 4 <= Level(e) <= 21
  {
  }

  /** An outranked operator is applied first. */
  lemma StkOpAfter(m: Shifter, t: Stacks, u: Stacks, o: Opr)
    requires t.opr != [] && Balanced(t, false) && !Top(t).LParen? && Unstack(m, t) == Good(u) && Pri(o) < Pri(Top(t))
    ensures StkOp(m, t, o) == StkOp(m, u, o)
  {
    hide Unstack;
  }

  lemma SettlesAfter(m: Shifter, s': Stacks, level: nat, t: Stacks, u: Stacks)
    requires t.opr != [] && Balanced(t, false) && !Top(t).LParen? && Unstack(m, t) == Good(u)
    requires Settles(m, s', level, t) && Pri(Top(t)) <= level
    ensures Settles(m, s', Pri(Top(t)), u)
  {
    hide Unstack, StkOp;
    forall o | Pri(o) < Pri(Top(t)) ensures StkOp(m, s', o) == StkOp(m, u, o) {
      StkOpAfter(m, t, u, o);
    }
  }

  /** Taking the prefix operator off again. */
  lemma PrefixSettles(m: Shifter, s: Stacks, op: Opr, v: int, s': Stacks, level: nat)
    requires IsPrefix(op) && level >= 20 && Settles(m, s', level, Pushed(Under(s, op), v))
    ensures Settles(m, s', 20, Pushed(s, Prefix(op, v)))
  {
    hide Prefix, StkOp;
    UnderTop(s, op);
    var t := Pushed(Under(s, op), v);
    assert t.opn[..|t.opn| - 1] == s.opn;
    SettlesAfter(m, s', level, t, Pushed(s, Prefix(op, v)));
  }

  lemma PlainSettles(m: Shifter, s: Stacks, op: Opr, a: int, b: int, s': Stacks, level: nat)
    requires IsPlain(op) && level >= Pri(op) && Settles(m, s', level, Pushed(Under(Pushed(s, a), op), b))
    ensures !Divides(op, b) ==> Settles(m, s', Pri(op), Pushed(s, Arith(m, op, a, b)))
    ensures Divides(op, b) ==> forall o :: Pri(o) < Pri(op) ==> StkOp(m, s', o) == Bad(ZeroDivide)
  {
    hide Arith;
    UnderTop(Pushed(s, a), op);
    var t := Pushed(Under(Pushed(s, a), op), b);
    assert t.opn == s.opn + [a, b];
    if Divides(op, b) {
      assert Unstack(m, t).Bad?;
    } else {
      assert t.opn[..|t.opn| - 2] == s.opn;
      SettlesAfter(m, s', level, t, Pushed(s, Arith(m, op, a, b)));
    }
  }

  /** The right parenthesis takes the left one off. */
  lemma ParenSettles(m: Shifter, s: Stacks, v: int, s': Stacks, level: nat)
    requires level > 2 && Settles(m, s', level, Pushed(Under(s, LParen), v))
    ensures Balanced(s', false) && StkOp(m, s', RParen) == Good(Pushed(s, v)) && Settles(m, Pushed(s, v), 21, Pushed(s, v))
  {
    hide StkOp, Settles;
    UnderTop(s, LParen);
    SettlesAt(m, s', level, Pushed(Under(s, LParen), v), RParen);
    Closes(m, s, v);
    SettlesItself(m, Pushed(s, v), 21);
  }

  lemma SettlesAt(m: Shifter, s': Stacks, level: nat, t: Stacks, op: Opr)
    requires Settles(m, s', level, t) && Pri(op) < level
    ensures Balanced(s', false) && Balanced(t, false) && StkOp(m, s', op) == StkOp(m, t, op)
  {
    hide StkOp;
  }

  lemma SettlesItself(m: Shifter, t: Stacks, level: nat)
    requires Balanced(t, false)
    ensures Settles(m, t, level, t)
  {
    hide StkOp;
  }

  lemma Closes(m: Shifter, s: Stacks, v: int)
    requires Balanced(Pushed(Under(s, LParen), v), false)
    ensures StkOp(m, Pushed(Under(s, LParen), v), RParen) == Good(Pushed(s, v))
  {
    UnderTop(s, LParen);
  }

  lemma CondSettles(m: Shifter, s: Stacks, z: int, a: int, b: int, s': Stacks, level: nat)
    requires level >= 6 && Settles(m, s', level, Pushed(Under(Pushed(Under(Pushed(s, z), QMark), a), Colon), b))
    ensures Settles(m, s', 6, Pushed(s, if z != 0 then a else b))
  {
    var q := Pushed(Under(Pushed(s, z), QMark), a);
    UnderTop(Pushed(s, z), QMark);
    UnderTop(q, Colon);
    var t := Pushed(Under(q, Colon), b);
    assert t.opn == s.opn + [z, a, b];
    assert t.opn[..|t.opn| - 3] == s.opn;
    SettlesAfter(m, s', level, t, Pushed(s, if z != 0 then a else b));
  }

  /** An operator that what came before it does not outrank goes on the stack. */
  lemma InfixStacks(m: Shifter, s': Stacks, level: nat, s: Stacks, v: int, op: Opr)
    requires Settles(m, s', level, Pushed(s, v)) && Pri(op) < level && IsBinary(op) && Calm(s, Pri(op))
    ensures StkOp(m, s', op) == Stack(Pushed(s, v), op)
    ensures Balanced(Under(Pushed(s, v), op), true) && Calm(Under(Pushed(s, v), op), Pri(op))
  {
    UnderTop(Pushed(s, v), op);
    Stacked(m, Pushed(s, v), op);
  }

  /** Reading a written expression leaves, once the operators that its level
      allows have been applied, just its value on the stack. */
  lemma {:induction false} Reads(m: Shifter, s: Stacks, e: Expr, rest: seq<Token>) returns (s': Stacks)
    requires Expecting(s, e) && Sound(m, s, e)
    ensures Settles(m, s', Level(e), Pushed(s, Eval(m, e).value))
    ensures Scan(m, s, true, Written(e) + rest) == Scan(m, s', false, rest)
    decreases e, 1
  {
    hide StkOp, Settles, Balanced, Calm, Scan, Arith, Prefix, Written;
    match e
    case Lit(v) =>
      s' := Pushed(s, v);
      ReadsLit(m, s, v, rest);
    case Paren(e1) => s' := ReadsParen(m, s, e1, rest);
    case Plus(e1) =>
      PlusWritten(e1, rest);
      s' := Reads(m, s, e1, rest);
      ReadsPlus(m, s, e1, rest);
    case Un(op, e1) => s' := ReadsUn(m, s, op, e1, rest);
    case Bin(op, l, r) => s' := ReadsBin(m, s, op, l, r, rest);
    case Cond(c, a, b) => s' := ReadsCond(m, s, c, a, b, rest);
  }

  lemma ReadsLit(m: Shifter, s: Stacks, v: int, rest: seq<Token>)
    requires Balanced(s, true) && |s.opr| < STKLEN && |s.opn| + 1 < STKLEN
    ensures Settles(m, Pushed(s, v), 21, Pushed(s, v))
    ensures Scan(m, s, true, Written(Lit(v)) + rest) == Scan(m, Pushed(s, v), false, rest)
  {
    ScanOperand(m, s, v, rest);
  }

  lemma ReadsPlus(m: Shifter, s: Stacks, e: Expr, rest: seq<Token>)
    requires Balanced(s, true) && Proper(e)
    ensures Scan(m, s, true, Written(Plus(e)) + rest) == Scan(m, s, true, Written(e) + rest)
  {
    PlusWritten(e, rest);
  }

  lemma {:induction false} ReadsParen(m: Shifter, s: Stacks, e: Expr, rest: seq<Token>) returns (s': Stacks)
    requires Expecting(s, Paren(e)) && Sound(m, s, Paren(e))
    ensures Settles(m, s', 21, Pushed(s, Eval(m, e).value))
    ensures Scan(m, s, true, Written(Paren(e)) + rest) == Scan(m, s', false, rest)
    decreases Paren(e), 0
  {
    hide Written, StkOp, Settles, Balanced, Scan;
    LevelAtMost(e);
    ParenWritten(e, rest);
    ScanOpening(m, s, LParen, Written(e) + ([Sign(RParen)] + rest));
    UnderTop(s, LParen);
    var s1 := Reads(m, Under(s, LParen), e, [Sign(RParen)] + rest);
    s' := Pushed(s, Eval(m, e).value);
    ParenSettles(m, s, Eval(m, e).value, s1, Level(e));
    ScanClosing(m, s1, rest);
  }

  lemma CalmMore(s: Stacks, low: nat, high: nat)
    requires Calm(s, low) && low <= high
    ensures Calm(s, high)
  {
  }

  lemma {:induction false} ReadsUn(m: Shifter, s: Stacks, op: Opr, e: Expr, rest: seq<Token>) returns (s': Stacks)
    requires Expecting(s, Un(op, e)) && Sound(m, s, Un(op, e))
    ensures Settles(m, s', 20, Pushed(s, Eval(m, Un(op, e)).value))
    ensures Scan(m, s, true, Written(Un(op, e)) + rest) == Scan(m, s', false, rest)
    decreases Un(op, e), 0
  {
    hide Prefix, Written, StkOp, Settles, Balanced, Calm, Scan;
    UnWritten(op, e, rest);
    ScanOpening(m, s, op, Written(e) + rest);
    CalmMore(Under(s, op), 20, Level(e));
    s' := Reads(m, Under(s, op), e, rest);
    PrefixSettles(m, s, op, Eval(m, e).value, s', Level(e));
  }

  /** Reads an operand and the operator after it. */
  lemma {:induction false} ReadsLeft(m: Shifter, s: Stacks, e: Expr, op: Opr, rest: seq<Token>)
    requires Expecting(s, e) && Sound(m, s, e) && IsBinary(op) && Level(e) > Pri(op) && Calm(s, Pri(op))
    ensures var s1 := Under(Pushed(s, Eval(m, e).value), op);
            && Balanced(s1, true) && Calm(s1, Pri(op))
            && Scan(m, s, true, Written(e) + ([Sign(op)] + rest))
               == if |s.opr| >= STKLEN - 1 then Bad(Overflow) else Scan(m, s1, true, rest)
    decreases e, 2
  {
    hide Written, StkOp, Settles, Balanced, Calm, Scan, Grouped, Eval;
    var v := Eval(m, e).value;
    var s1 := Reads(m, s, e, [Sign(op)] + rest);
    InfixStacks(m, s1, Level(e), s, v, op);
    SettlesBalanced(m, s1, Level(e), Pushed(s, v));
    ScanInfix(m, s1, op, rest);
  }

  lemma SettlesBalanced(m: Shifter, s': Stacks, level: nat, t: Stacks)
    requires Settles(m, s', level, t)
    ensures Balanced(s', false) && Balanced(t, false)
  {
  }

  lemma {:induction false} ReadsBin(m: Shifter, s: Stacks, op: Opr, l: Expr, r: Expr,
        rest: seq<Token>) returns (s': Stacks)
    requires Expecting(s, Bin(op, l, r)) && Sound(m, s, Bin(op, l, r))
    ensures Settles(m, s', Pri(op), Pushed(s, Eval(m, Bin(op, l, r)).value))
    ensures Scan(m, s, true, Written(Bin(op, l, r)) + rest) == Scan(m, s', false, rest)
    decreases Bin(op, l, r), 0
  {
    hide Written, StkOp, Settles, Balanced, Calm, Scan, Arith;
    BinWritten(op, l, r, rest);
    CalmMore(s, Pri(op), Level(l));
    ReadsLeft(m, s, l, op, Written(r) + rest);
    var s1 := Under(Pushed(s, Eval(m, l).value), op);
    CalmMore(s1, Pri(op), Level(r));
    s' := Reads(m, s1, r, rest);
    PlainSettles(m, s, op, Eval(m, l).value, Eval(m, r).value, s', Level(r));
  }

  lemma {:induction false} ReadsCond(m: Shifter, s: Stacks, c: Expr, a: Expr, b: Expr,
        rest: seq<Token>) returns (s': Stacks)
    requires Expecting(s, Cond(c, a, b)) && Sound(m, s, Cond(c, a, b))
    ensures Settles(m, s', 6, Pushed(s, Eval(m, Cond(c, a, b)).value))
    ensures Scan(m, s, true, Written(Cond(c, a, b)) + rest) == Scan(m, s', false, rest)
    decreases Cond(c, a, b), 0
  {
    hide Written, StkOp, Settles, Balanced, Calm, Scan;
    CondWritten(c, a, b, rest);
    CalmMore(s, 6, Level(c));
    ReadsLeft(m, s, c, QMark, Written(a) + ([Sign(Colon)] + (Written(b) + rest)));
    var s1 := Under(Pushed(s, Eval(m, c).value), QMark);
    CalmMore(s1, 6, Level(a));
    ReadsLeft(m, s1, a, Colon, Written(b) + rest);
    var s2 := Under(Pushed(s1, Eval(m, a).value), Colon);
    CalmMore(s2, 6, Level(b));
    s' := Reads(m, s2, b, rest);
    CondSettles(m, s, Eval(m, c).value, Eval(m, a).value, Eval(m, b).value, s', Level(b));
  }

  // ----- what cannot be evaluated -----

  /** Any operator below the level brings out the trouble. */
  ghost predicate Stuck(m: Shifter, s: Stacks, level: nat, why: Trouble) {
    Balanced(s, false) && forall op :: Pri(op) < level ==> StkOp(m, s, op) == Bad(why)
  }

  lemma StuckLess(m: Shifter, s: Stacks, high: nat, low: nat, why: Trouble)
    requires Stuck(m, s, high, why) && low <= high
    ensures Stuck(m, s, low, why)
  {
    hide StkOp;
  }

  /** Without room, or with a zero divisor, reading fails at once or is bound to fail,
      with the trouble of the verdict. */
  lemma {:induction false} Fails(m: Shifter, s: Stacks, e: Expr, rest: seq<Token>) returns (at: Option<Stacks>)
    requires Expecting(s, e) && At(m, s, e).Bad?
    ensures at.None? ==> Scan(m, s, true, Written(e) + rest) == Bad(At(m, s, e).why)
    ensures at.Some? ==> Stuck(m, at.value, Level(e), At(m, s, e).why)
                         && Scan(m, s, true, Written(e) + rest) == Scan(m, at.value, false, rest)
    decreases e, 2
  {
    hide StkOp, Stuck, Balanced, Calm, Scan, Arith, Prefix, Written;
    match e
    case Lit(v) =>
      FailsLit(m, s, v, rest);
      at := None;
    case Paren(e1) =>
      FailsParen(m, s, e1, rest);
      at := None;
    case Plus(e1) =>
      at := Fails(m, s, e1, rest);
      ReadsPlus(m, s, e1, rest);
    case Un(op, e1) => at := FailsUn(m, s, op, e1, rest);
    case Bin(op, l, r) => at := FailsBin(m, s, op, l, r, rest);
    case Cond(c, a, b) => at := FailsCond(m, s, c, a, b, rest);
  }

  lemma FailsLit(m: Shifter, s: Stacks, v: int, rest: seq<Token>)
    requires Balanced(s, true) && |s.opr| < STKLEN && At(m, s, Lit(v)).Bad?
    ensures Scan(m, s, true, Written(Lit(v)) + rest) == Bad(At(m, s, Lit(v)).why)
  {
    ScanOperand(m, s, v, rest);
  }

  lemma {:induction false} FailsParen(m: Shifter, s: Stacks, e: Expr, rest: seq<Token>)
    requires Expecting(s, Paren(e)) && At(m, s, Paren(e)).Bad?
    ensures Scan(m, s, true, Written(Paren(e)) + rest) == Bad(At(m, s, Paren(e)).why)
    decreases Paren(e), 0
  {
    hide Written, StkOp, Balanced, Scan;
    LevelAtMost(e);
    ParenWritten(e, rest);
    ScanOpening(m, s, LParen, Written(e) + ([Sign(RParen)] + rest));
    UnderTop(s, LParen);
    if |s.opr| < STKLEN - 1 {
      var at := Fails(m, Under(s, LParen), e, [Sign(RParen)] + rest);
      if at.Some? {
        assert StkOp(m, at.value, RParen).Bad?;
        ScanClosing(m, at.value, rest);
      }
    }
  }

  lemma {:induction false} FailsUn(m: Shifter, s: Stacks, op: Opr, e: Expr,
        rest: seq<Token>) returns (at: Option<Stacks>)
    requires Expecting(s, Un(op, e)) && At(m, s, Un(op, e)).Bad?
    ensures at.None? ==> Scan(m, s, true, Written(Un(op, e)) + rest) == Bad(At(m, s, Un(op, e)).why)
    ensures at.Some? ==> Stuck(m, at.value, 20, At(m, s, Un(op, e)).why)
                         && Scan(m, s, true, Written(Un(op, e)) + rest) == Scan(m, at.value, false, rest)
    decreases Un(op, e), 0
  {
    hide Prefix, Written, StkOp, Stuck, Balanced, Calm, Scan;
    at := None;
    UnWritten(op, e, rest);
    ScanOpening(m, s, op, Written(e) + rest);
    if |s.opr| < STKLEN - 1 {
      CalmMore(Under(s, op), 20, Level(e));
      at := Fails(m, Under(s, op), e, rest);
      if at.Some? {
        StuckLess(m, at.value, Level(e), 20, At(m, s, Un(op, e)).why);
      }
    }
  }

  lemma {:induction false} FailsLeft(m: Shifter, s: Stacks, e: Expr, op: Opr, rest: seq<Token>)
    requires Expecting(s, e) && At(m, s, e).Bad? && IsBinary(op) && Level(e) > Pri(op)
    ensures Scan(m, s, true, Written(e) + ([Sign(op)] + rest)) == Bad(At(m, s, e).why)
    decreases e, 3
  {
    hide Written, StkOp, Balanced, Calm, Scan, Grouped, Verdict;
    var at := Fails(m, s, e, [Sign(op)] + rest);
    if at.Some? {
      assert StkOp(m, at.value, op).Bad?;
      ScanInfix(m, at.value, op, rest);
    }
  }

  lemma {:induction false} FailsBin(m: Shifter, s: Stacks, op: Opr, l: Expr, r: Expr,
        rest: seq<Token>) returns (at: Option<Stacks>)
    requires Expecting(s, Bin(op, l, r)) && At(m, s, Bin(op, l, r)).Bad?
    ensures at.None? ==> Scan(m, s, true, Written(Bin(op, l, r)) + rest) == Bad(At(m, s, Bin(op, l, r)).why)
    ensures at.Some? ==> Stuck(m, at.value, Pri(op), At(m, s, Bin(op, l, r)).why)
                         && Scan(m, s, true, Written(Bin(op, l, r)) + rest) == Scan(m, at.value, false, rest)
    decreases Bin(op, l, r), 1
  {
    hide Written, StkOp, Settles, Stuck, Balanced, Calm, Scan, Arith, Sound;
    at := None;
    BinWritten(op, l, r, rest);
    CalmMore(s, Pri(op), Level(l));
    SoundMeaning(m, s, l);
    if At(m, s, l).Bad? {
      FailsLeft(m, s, l, op, Written(r) + rest);
    } else {
      ReadsLeft(m, s, l, op, Written(r) + rest);
      if |s.opr| < STKLEN - 1 {
        at := FailsRight(m, s, op, l, r, rest);
      }
    }
  }

  lemma {:induction false} FailsRight(m: Shifter, s: Stacks, op: Opr, l: Expr, r: Expr,
        rest: seq<Token>) returns (at: Option<Stacks>)
    requires Expecting(s, Bin(op, l, r)) && At(m, s, Bin(op, l, r)).Bad?
    requires At(m, s, l).Good? && |s.opr| < STKLEN - 1
    ensures var s1, why := Under(Pushed(s, At(m, s, l).v), op), At(m, s, Bin(op, l, r)).why;
            && Balanced(s1, true)
            && (at.None? ==> Scan(m, s1, true, Written(r) + rest) == Bad(why))
            && (at.Some? ==> Stuck(m, at.value, Pri(op), why)
                             && Scan(m, s1, true, Written(r) + rest) == Scan(m, at.value, false, rest))
    decreases Bin(op, l, r), 0
  {
    hide Written, StkOp, Settles, Stuck, Balanced, Calm, Scan, Arith, Sound;
    var v := At(m, s, l).v;
    SoundMeaning(m, s, l);
    UnderExpects(s, v, op, Pri(op), Level(r));
    var s1 := Under(Pushed(s, v), op);
    SoundMeaning(m, s1, r);
    if At(m, s1, r).Bad? {
      at := Fails(m, s1, r, rest);
      if at.Some? {
        StuckLess(m, at.value, Level(r), Pri(op), At(m, s1, r).why);
      }
    } else {
      var s2 := Reads(m, s1, r, rest);
      at := Some(s2);
      PlainSettles(m, s, op, v, Eval(m, r).value, s2, Level(r));
      SettlesBalanced(m, s2, Level(r), Pushed(s1, Eval(m, r).value));
      StuckHere(m, s2, Pri(op), ZeroDivide);
    }
  }

  lemma UnderExpects(s: Stacks, v: int, op: Opr, low: nat, high: nat)
    requires Balanced(s, true) && IsBinary(op) && Pri(op) <= low <= high
    ensures Balanced(Under(Pushed(s, v), op), true) && Calm(Under(Pushed(s, v), op), high)
  {
    UnderTop(Pushed(s, v), op);
  }

  lemma StuckHere(m: Shifter, s: Stacks, level: nat, why: Trouble)
    requires Balanced(s, false) && forall o :: Pri(o) < level ==> StkOp(m, s, o) == Bad(why)
    ensures Stuck(m, s, level, why)
  {
  }

  lemma {:induction false} FailsCond(m: Shifter, s: Stacks, c: Expr, a: Expr, b: Expr, rest: seq<Token>)
    returns (at: Option<Stacks>)
    requires Expecting(s, Cond(c, a, b)) && At(m, s, Cond(c, a, b)).Bad?
    ensures at.None? ==> Scan(m, s, true, Written(Cond(c, a, b)) + rest) == Bad(At(m, s, Cond(c, a, b)).why)
    ensures at.Some? ==> Stuck(m, at.value, 6, At(m, s, Cond(c, a, b)).why)
                         && Scan(m, s, true, Written(Cond(c, a, b)) + rest) == Scan(m, at.value, false, rest)
    decreases Cond(c, a, b), 0
  {
    hide Written, StkOp, Settles, Stuck, Balanced, Calm, Scan, Sound;
    at := None;
    CondWritten(c, a, b, rest);
    CalmMore(s, 6, Level(c));
    var rest1 := Written(a) + ([Sign(Colon)] + (Written(b) + rest));
    SoundMeaning(m, s, c);
    if At(m, s, c).Bad? {
      FailsLeft(m, s, c, QMark, rest1);
    } else {
      ReadsLeft(m, s, c, QMark, rest1);
      if |s.opr| < STKLEN - 1 {
        var s1 := Under(Pushed(s, Eval(m, c).value), QMark);
        CalmMore(s1, 6, Level(a));
        SoundMeaning(m, s1, a);
        if At(m, s1, a).Bad? {
          FailsLeft(m, s1, a, Colon, Written(b) + rest);
        } else {
          ReadsLeft(m, s1, a, Colon, Written(b) + rest);
          if |s1.opr| < STKLEN - 1 {
            var s2 := Under(Pushed(s1, Eval(m, a).value), Colon);
            CalmMore(s2, 6, Level(b));
            at := Fails(m, s2, b, rest);
            if at.Some? {
              StuckLess(m, at.value, Level(b), 6, At(m, s2, b).why);
            }
          }
        }
      }
    }
  }

  // ----- the main results -----

  /** The evaluator's answer to a written expression is the verdict on its tree: the
      value exactly when the operators and the operands fit their stacks and nothing
      is divided by zero, and otherwise the trouble that is met first. */
  lemma Evaluates(m: Shifter, e: Expr, rest: seq<Token>)
    requires Proper(e) && Grouped(e)
    ensures var answer := Answer(m, Written(e) + ([NewLine] + rest));
            && answer == Verdict(m, 0, 0, e)
            && (answer.Good? <==> Eval(m, e).Some? && Need(e) < STKLEN && Peak(e) < STKLEN)
            && (answer.Good? ==> answer.v == Eval(m, e).value)
  {
    hide Written, Eval, Grouped, StkOp, Proper, Verdict, Sound;
    var s := Stacks([], []);
    LevelAtMost(e);
    SoundMeaning(m, s, e);
    VerdictMeaning(m, 0, 0, e);
    if At(m, s, e).Good? {
      var s1 := Reads(m, s, e, [NewLine] + rest);
      var v := Eval(m, e).value;
      assert StkOp(m, s1, Eof) == StkOp(m, Pushed(s, v), Eof);
      Stacked(m, Pushed(s, v), Eof);
    } else {
      var at := Fails(m, s, e, [NewLine] + rest);
      if at.Some? {
        assert StkOp(m, at.value, Eof).Bad?;
      }
    }
  }

  /** An operand goes into the slot after the array's last only if more than 63 are
      held at once; and when nothing else is wrong, exactly then. */
  lemma OverrunExact(m: Shifter, e: Expr, rest: seq<Token>)
    requires Proper(e) && Grouped(e)
    ensures var answer := Answer(m, Written(e) + ([NewLine] + rest));
            && (answer == Bad(Overrun) ==> Peak(e) >= STKLEN)
            && (Eval(m, e).Some? && Need(e) < STKLEN ==> (answer == Bad(Overrun) <==> Peak(e) >= STKLEN))
  {
    hide Written, Eval, Grouped, Answer, Proper, Verdict;
    Evaluates(m, e, rest);
    VerdictMeaning(m, 0, 0, e);
  }

  /** Operands do not outnumber the operators before them by more than one, so an
      overrun takes the operator stack's last place as well. */
  lemma {:induction false} PeakNeed(e: Expr)
    ensures Peak(e) <= Need(e) + 1
  {
    match e
    case Lit(_) =>
    case Paren(e1) => PeakNeed(e1);
    case Plus(e1) => PeakNeed(e1);
    case Un(_, e1) => PeakNeed(e1);
    case Bin(_, l, r) =>
      PeakNeed(l);
      PeakNeed(r);
    case Cond(c, a, b) =>
      PeakNeed(c);
      PeakNeed(a);
      PeakNeed(b);
  }

  /** 1 - 1 - ... - 1 with n + 1 terms. */
  function Minuses(n: nat): Expr {
    if n == 0 then Lit(1) else Bin(Sub, Lit(1), Minuses(n - 1))
  }

  lemma {:induction false} MinusesMeaning(m: Shifter, n: nat)
    ensures var e := Minuses(n);
            && Proper(e) && Grouped(e) && Need(e) == n && Peak(e) == n + 1
            && Level(e) == (if n == 0 then 21 else 16)
            && Eval(m, e) == Some(if n % 2 == 0 then 1 else 0)
  {
    hide Proper, Grouped, Need, Peak, Level, Eval;
    LitMeaning(m, 1);
    if n > 0 {
      MinusesMeaning(m, n - 1);
      MinusMore(m, Minuses(n - 1));
    }
  }

  lemma LitMeaning(m: Shifter, v: int)
    ensures var e := Lit(v);
            Proper(e) && Grouped(e) && Level(e) == 21 && Need(e) == 0 && Peak(e) == 1 && Eval(m, e) == Some(v)
  {
  }

  lemma MinusMore(m: Shifter, r: Expr)
    requires Proper(r) && Grouped(r) && Level(r) >= 16 && Eval(m, r).Some?
    ensures var e := Bin(Sub, Lit(1), r);
            && Proper(e) && Grouped(e) && Level(e) == 16 && Need(e) == Need(r) + 1 && Peak(e) == Max(1, Peak(r) + 1)
            && Eval(m, e) == Some(Short(1 - Eval(m, r).value))
  {
    hide Short, Proper, Grouped, Need, Peak, Eval;
    LitMeaning(m, 1);
    BinMeaning(m, Sub, Lit(1), r);
  }

  lemma BinMeaning(m: Shifter, op: Opr, l: Expr, r: Expr)
    requires IsPlain(op) && Proper(l) && Proper(r)
    ensures var e := Bin(op, l, r);
            && Proper(e) && Level(e) == Pri(op)
            && (Grouped(e) <==> Grouped(l) && Grouped(r) && Level(l) > Pri(op) && Level(r) >= Pri(op))
            && Need(e) == Max(Need(l), Need(r) + 1) && Peak(e) == Max(Peak(l), Peak(r) + 1)
            && (Eval(m, l).Some? && Eval(m, r).Some? && !Divides(op, Eval(m, r).value) ==>
                  Eval(m, e) == Some(Arith(m, op, Eval(m, l).value, Eval(m, r).value)))
  {
    hide Arith;
  }

  lemma {:induction false} MinusesOverrun(m: Shifter, d: nat, n: nat)
    requires Proper(Minuses(n)) && d < STKLEN && d + n >= STKLEN - 1
    ensures Verdict(m, d, d, Minuses(n)) == Bad(Overrun)
    decreases n
  {
    if n > 0 {
      assert Verdict(m, d, d, Lit(1)) == if d >= STKLEN - 1 then Bad(Overrun) else Good(1);
      if d < STKLEN - 1 {
        MinusesOverrun(m, d + 1, n - 1);
      }
    }
  }

  /** Of these chains the evaluator reads those of at most 63 terms: with 64 the
      operators still fit their stack, but the last operand overruns its array. */
  lemma LongChain(m: Shifter, n: nat, rest: seq<Token>)
    ensures Proper(Minuses(n))
    ensures Answer(m, Written(Minuses(n)) + ([NewLine] + rest))
         == if n <= 62 then Good(if n % 2 == 0 then 1 else 0) else Bad(Overrun)
  {
    hide Written, Eval, Grouped, Answer, Proper, Verdict;
    MinusesMeaning(m, n);
    Evaluates(m, Minuses(n), rest);
    if n > 62 {
      MinusesOverrun(m, 0, n);
    }
  }

  /** A trouble that comes first can stop the scan short of the overrun. */
  lemma StoppedBefore(m: Shifter, rest: seq<Token>)
    ensures var e := Bin(Add, Bin(Div, Lit(1), Lit(0)), Minuses(63));
            && Proper(e) && Grouped(e) && Peak(e) >= STKLEN
            && Answer(m, Written(e) + ([NewLine] + rest)) == Bad(ZeroDivide)
  {
    hide Answer, Written, Minuses, Eval;
    MinusesMeaning(m, 63);
    ZeroQuotient(m);
    Evaluates(m, Bin(Add, Bin(Div, Lit(1), Lit(0)), Minuses(63)), rest);
  }

  lemma ZeroQuotient(m: Shifter)
    ensures var q := Bin(Div, Lit(1), Lit(0));
            Proper(q) && Grouped(q) && Level(q) == 18 && Verdict(m, 0, 0, q) == Bad(ZeroDivide)
  {
    assert Verdict(m, 0, 0, Lit(1)) == Good(1) && Verdict(m, 1, 1, Lit(0)) == Good(0);
  }

  /** Any tree, written with just the parentheses the priorities require. */
  lemma TreeEvaluates(m: Shifter, e: Expr)
    requires Proper(e) && Eval(m, e).Some? && Need(Dressed(e)) < STKLEN && Peak(Dressed(e)) < STKLEN
    ensures Proper(Dressed(e)) && Answer(m, Written(Dressed(e)) + [NewLine]) == Good(Eval(m, e).value)
  {
    hide Written, Eval, Grouped, Proper, Need, Answer, Peak, Verdict;
    DressedGrouped(m, e);
    Evaluates(m, Dressed(e), []);
    assert [NewLine] + [] == [NewLine];
  }

  lemma PairFacts(m: Shifter, op: Opr, b: int, c: int)
    requires IsPlain(op) && !Divides(op, c)
    ensures var r := Bin(op, Lit(b), Lit(c));
            Proper(r) && Grouped(r) && Eval(m, r) == Some(Arith(m, op, b, c)) && Need(r) == 1 && Peak(r) == 2
  {
    hide Arith;
    assert Eval(m, Lit(b)) == Some(b) && Eval(m, Lit(c)) == Some(c);
    assert Need(Lit(b)) == 0 && Need(Lit(c)) == 0 && Peak(Lit(b)) == 1 && Peak(Lit(c)) == 1;
  }

  /** Operators of equal priority group to the right, subtractions too. */
  lemma GroupsRight(m: Shifter, op: Opr, op2: Opr, a: int, b: int, c: int)
    requires IsPlain(op) && IsPlain(op2) && Pri(op) == Pri(op2)
    requires !Divides(op2, c) && !Divides(op, Arith(m, op2, b, c))
    ensures Answer(m, [Const(a), Sign(op), Const(b), Sign(op2), Const(c), NewLine])
         == Good(Arith(m, op, a, Arith(m, op2, b, c)))
  {
    hide Arith, Answer;
    var r := Bin(op2, Lit(b), Lit(c));
    var e := Bin(op, Lit(a), r);
    PairFacts(m, op2, b, c);
    Evaluates(m, e, []);
    assert Written(Bin(op2, Lit(b), Lit(c))) == [Const(b), Sign(op2), Const(c)];
    assert Written(e) == [Const(a), Sign(op), Const(b), Sign(op2), Const(c)];
    assert Written(e) + ([NewLine] + []) == [Const(a), Sign(op), Const(b), Sign(op2), Const(c), NewLine];
    assert Eval(m, e) == Some(Arith(m, op, a, Arith(m, op2, b, c)));
    assert Need(e) == 2 && Peak(Lit(a)) == 1 && Peak(e) == 3;
  }

  /** So 1 - 2 - 3 is 2 here, where grouping to the left would make it -4. */
  lemma MinusGroupsRight(m: Shifter)
    ensures Answer(m, [Const(1), Sign(Sub), Const(2), Sign(Sub), Const(3), NewLine]) == Good(2)
  {
    hide Answer;
    GroupsRight(m, Sub, Sub, 1, 2, 3);
  }
}
