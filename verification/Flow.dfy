/** The statements the first pass parses and what they mean, without labels. */
module Flow {
  import opened Machine
  import opened Options
  import opened Words

  datatype Stmt =
    | Null
    | Expr(a: Atom)
    | Seq(first: Stmt, second: Stmt)
    | If(test: Cond, thn: Stmt)
    | IfElse(test: Cond, thn: Stmt, els: Stmt)
    | While(test: Cond, body: Stmt)
    | Do(body: Stmt, until: Option<Cond>)          // None: the `while` is missing
    | For(init: Option<Atom>, cond: Option<Cond>, step: Option<Atom>, body: Stmt)
    | Switch(a: Atom, body: Stmt)
    | Case(v: int, s: Stmt)
    | Default(s: Stmt)
    | Break
    | Continue
    | Return(value: Option<Atom>)

  /** A statement can be entered at its start, or at one of the case labels of
      the enclosing switch, however deep inside the statement that label is. */
  datatype Target = ToCase(v: int) | ToDefault
  datatype Mode = FromStart | Seek(t: Target)

  datatype Outcome = Normal | Broke | Continued | Ended

  /** Labels that belong to a switch around s: those in nested switches do not.
      Case constants are kept as 16-bit words. */
  predicate Contains(s: Stmt, t: Target) {
    match s
    case Seq(a, b) => Contains(a, t) || Contains(b, t)
    case If(_, thn) => Contains(thn, t)
    case IfElse(_, thn, els) => Contains(thn, t) || Contains(els, t)
    case While(_, body) => Contains(body, t)
    case Do(body, _) => Contains(body, t)
    case For(_, _, _, body) => Contains(body, t)
    case Case(v, s1) => t == ToCase(Short(v)) || Contains(s1, t)
    case Default(s1) => t == ToDefault || Contains(s1, t)
    case _ => false
  }

  /** An entry mode that makes sense for s. */
  predicate Enters(s: Stmt, m: Mode) {
    m.Seek? ==> Contains(s, m.t)
  }

  /** None: still running when the fuel, one unit for every time a loop goes
      round again, is spent. */
  type Result = Option<(Outcome, History)>

  /** Big-step meaning.  A target that occurs twice means its last occurrence
      (only `default` can: a repeated case value is an error). */
  function Exec(w: World, s: Stmt, m: Mode, h: History, fuel: nat): Result
    requires Enters(s, m)
    decreases fuel, s, 0
  {
    match s
    case Null => Some((Normal, h))
    case Expr(a) => Some((Normal, h + [Did(a)]))
    case Break => Some((Broke, h))
    case Continue => Some((Continued, h))
    case Return(e) => Some((Ended, if e.None? then h else h + [Returned(e.value)]))
    case Seq(a, b) =>
      if m.Seek? && Contains(b, m.t) then Exec(w, b, m, h, fuel)
      else
        var r := Exec(w, a, m, h, fuel);
        if r.Some? && r.value.0 == Normal then Exec(w, b, FromStart, r.value.1, fuel) else r
    case If(c, thn) =>
      if m.Seek? then Exec(w, thn, m, h, fuel)
      else
        var (b, h1) := Truth(w, c, h);
        if b then Exec(w, thn, m, h1, fuel) else Some((Normal, h1))
    case IfElse(c, thn, els) =>
      if m.Seek? then (if Contains(els, m.t) then Exec(w, els, m, h, fuel) else Exec(w, thn, m, h, fuel))
      else
        var (b, h1) := Truth(w, c, h);
        Exec(w, if b then thn else els, m, h1, fuel)
    case While(c, body) =>
      if m.Seek? then LoopBody(w, Some(c), None, body, m, h, fuel)
      else LoopTest(w, Some(c), None, body, h, fuel)
    case Do(body, c) => LoopBody(w, c, None, body, m, h, fuel)
    case For(init, c, step, body) =>
      if m.Seek? then LoopBody(w, c, step, body, m, h, fuel)
      else LoopTest(w, c, step, body, After(h, init), fuel)
    case Case(v, s1) => Exec(w, s1, if m.Seek? && Contains(s1, m.t) then m else FromStart, h, fuel)
    case Default(s1) => Exec(w, s1, if m.Seek? && Contains(s1, m.t) then m else FromStart, h, fuel)
    case Switch(a, body) =>
      var h1 := h + [Switched(a)];
      var t := Chosen(body, Selector(w, h1));
      if t.None? then Some((Normal, h1)) else LeaveSwitch(Exec(w, body, Seek(t.value), h1, fuel))
  }

  /** The label a selector value goes to. */
  function Chosen(body: Stmt, v: int): (t: Option<Target>)
    ensures t.Some? ==> Contains(body, t.value)
  {
    if Contains(body, ToCase(v)) then Some(ToCase(v))
    else if Contains(body, ToDefault) then Some(ToDefault)
    else None
  }

  function LeaveSwitch(r: Result): Result {
    if r.Some? && r.value.0 == Broke then Some((Normal, r.value.1)) else r
  }

  function After(h: History, e: Option<Atom>): History {
    if e.Some? then h + [Did(e.value)] else h
  }

  /** One trip through the body, then the step and the test. */
  function LoopBody(w: World, c: Option<Cond>, step: Option<Atom>, body: Stmt, m: Mode, h: History, fuel: nat): Result
    requires Enters(body, m)
    decreases fuel, body, 2
  {
    var r := Exec(w, body, m, h, fuel);
    if r.None? then r
    else match r.value.0
      case Broke => Some((Normal, r.value.1))
      case Ended => r
      case _ => LoopTest(w, c, step, body, After(r.value.1, step), fuel)
  }

  function LoopTest(w: World, c: Option<Cond>, step: Option<Atom>, body: Stmt, h: History, fuel: nat): Result
    decreases fuel, body, 1
  {
    var (b, h1) := Again(w, c, h);
    if !b then Some((Normal, h1))
    else if fuel == 0 then None
    else LoopBody(w, c, step, body, FromStart, h1, fuel - 1)
  }

  /** A loop without a condition goes round for ever. */
  function Again(w: World, c: Option<Cond>, h: History): (bool, History) {
    if c.None? then (true, h) else Truth(w, c.value, h)
  }

  /** Case values of the switch around s, in the order of the text. */
  function CaseValues(s: Stmt): seq<int> {
    match s
    case Seq(a, b) => CaseValues(a) + CaseValues(b)
    case If(_, thn) => CaseValues(thn)
    case IfElse(_, thn, els) => CaseValues(thn) + CaseValues(els)
    case While(_, body) => CaseValues(body)
    case Do(body, _) => CaseValues(body)
    case For(_, _, _, body) => CaseValues(body)
    case Case(v, s1) => [Short(v)] + CaseValues(s1)
    case Default(s1) => CaseValues(s1)
    case _ => []
  }

  const SWSIZE: nat := 256   // entries in the switch table, shared by nested switches

  /** The switch a statement is in: entries of the outer switches below it in
      the table, and its own case values so far. */
  datatype SwitchCtx = NoSwitch | InSwitch(base: nat, values: seq<int>)

  function Used(sw: SwitchCtx): nat {
    if sw.NoSwitch? then 0 else sw.base + |sw.values|
  }

  function With(sw: SwitchCtx, more: seq<int>): SwitchCtx {
    if sw.NoSwitch? then sw else sw.(values := sw.values + more)
  }

  /** The statements accepted without a diagnostic: break and continue have
      something to leave, cases and defaults are in a switch, no case value is
      repeated in its switch, and the table has room for every entry. */
  predicate Legal(s: Stmt, brk: bool, cnt: bool, sw: SwitchCtx) {
    match s
    case Break => brk
    case Continue => cnt
    case Seq(a, b) => Legal(a, brk, cnt, sw) && Legal(b, brk, cnt, With(sw, CaseValues(a)))
    case If(_, thn) => Legal(thn, brk, cnt, sw)
    case IfElse(_, thn, els) => Legal(thn, brk, cnt, sw) && Legal(els, brk, cnt, With(sw, CaseValues(thn)))
    case While(_, body) => Legal(body, true, true, sw)
    case Do(body, _) => Legal(body, true, true, sw)
    case For(_, _, _, body) => Legal(body, true, true, sw)
    case Switch(_, body) => Legal(body, true, cnt, InSwitch(Used(sw), []))
    case Case(v, s1) =>
      && sw.InSwitch? && Used(sw) < SWSIZE - 1 && Short(v) !in sw.values
      && Legal(s1, brk, cnt, With(sw, [Short(v)]))
    case Default(s1) => sw.InSwitch? && Legal(s1, brk, cnt, sw)
    case _ => true
  }

  lemma {:induction false} CaseValuesContained(s: Stmt, v: int)
    ensures v in CaseValues(s) <==> Contains(s, ToCase(v))
  {
    match s
    case Seq(a, b) => CaseValuesContained(a, v); CaseValuesContained(b, v);
    case If(_, thn) => CaseValuesContained(thn, v);
    case IfElse(_, thn, els) => CaseValuesContained(thn, v); CaseValuesContained(els, v);
    case While(_, body) => CaseValuesContained(body, v);
    case Do(body, _) => CaseValuesContained(body, v);
    case For(_, _, _, body) => CaseValuesContained(body, v);
    case Case(_, s1) => CaseValuesContained(s1, v);
    case Default(s1) => CaseValuesContained(s1, v);
    case _ =>
  }

  predicate Distinct(vs: seq<int>) {
    forall i, j :: 0 <= i < j < |vs| ==> vs[i] != vs[j]
  }

  /** Accepted statements repeat no case value in a switch. */
  lemma {:induction false} LegalDistinct(s: Stmt, brk: bool, cnt: bool, sw: SwitchCtx)
    requires Legal(s, brk, cnt, sw) && sw.InSwitch? && Distinct(sw.values)
    ensures Distinct(sw.values + CaseValues(s))
  {
    match s
    case Seq(a, b) =>
      LegalDistinct(a, brk, cnt, sw);
      LegalDistinct(b, brk, cnt, With(sw, CaseValues(a)));
      assert sw.values + CaseValues(s) == sw.values + CaseValues(a) + CaseValues(b);
    case If(_, thn) => LegalDistinct(thn, brk, cnt, sw);
    case IfElse(_, thn, els) =>
      LegalDistinct(thn, brk, cnt, sw);
      LegalDistinct(els, brk, cnt, With(sw, CaseValues(thn)));
      assert sw.values + CaseValues(s) == sw.values + CaseValues(thn) + CaseValues(els);
    case While(_, body) => LegalDistinct(body, true, true, sw);
    case Do(body, _) => LegalDistinct(body, true, true, sw);
    case For(_, _, _, body) => LegalDistinct(body, true, true, sw);
    case Case(v, s1) =>
      var sw1 := With(sw, [Short(v)]);
      LegalDistinct(s1, brk, cnt, sw1);
      assert sw.values + CaseValues(s) == sw1.values + CaseValues(s1);
    case Default(s1) => LegalDistinct(s1, brk, cnt, sw);
    case _ => assert sw.values + CaseValues(s) == sw.values;
  }

  /** Nor do they overrun the table. */
  lemma {:induction false} LegalFits(s: Stmt, brk: bool, cnt: bool, sw: SwitchCtx)
    requires Legal(s, brk, cnt, sw) && sw.InSwitch? && Used(sw) < SWSIZE
    ensures Used(With(sw, CaseValues(s))) < SWSIZE
  {
    match s
    case Seq(a, b) =>
      LegalFits(a, brk, cnt, sw);
      LegalFits(b, brk, cnt, With(sw, CaseValues(a)));
    case If(_, thn) => LegalFits(thn, brk, cnt, sw);
    case IfElse(_, thn, els) =>
      LegalFits(thn, brk, cnt, sw);
      LegalFits(els, brk, cnt, With(sw, CaseValues(thn)));
    case While(_, body) => LegalFits(body, true, true, sw);
    case Do(body, _) => LegalFits(body, true, true, sw);
    case For(_, _, _, body) => LegalFits(body, true, true, sw);
    case Case(v, s1) => LegalFits(s1, brk, cnt, With(sw, [Short(v)]));
    case Default(s1) => LegalFits(s1, brk, cnt, sw);
    case _ =>
  }

  /** A loop ends normally or by a return. */
  lemma {:induction false} LoopOutcome(w: World, c: Option<Cond>, step: Option<Atom>, body: Stmt, m: Mode,
        h: History, fuel: nat)
    requires Enters(body, m)
    ensures var r := LoopBody(w, c, step, body, m, h, fuel);
            r.Some? ==> r.value.0 == Normal || r.value.0 == Ended
    ensures var r := LoopTest(w, c, step, body, h, fuel);
            r.Some? ==> r.value.0 == Normal || r.value.0 == Ended
    decreases fuel, 1
  {
    hide Exec, Contains;
    var r := Exec(w, body, m, h, fuel);
    TestOutcome(w, c, step, body, h, fuel);
    if r.Some? {
      TestOutcome(w, c, step, body, After(r.value.1, step), fuel);
    }
  }

  lemma {:induction false} TestOutcome(w: World, c: Option<Cond>, step: Option<Atom>, body: Stmt, h: History, fuel: nat)
    ensures var r := LoopTest(w, c, step, body, h, fuel);
            r.Some? ==> r.value.0 == Normal || r.value.0 == Ended
    decreases fuel, 0
  {
    hide Exec, LoopBody;
    var (b, h1) := Again(w, c, h);
    if b && fuel > 0 {
      LoopOutcome(w, c, step, body, FromStart, h1, fuel - 1);
    }
  }

  /** A legal statement breaks or continues only out of something around it. */
  lemma {:induction false} NoStrayExit(w: World, s: Stmt, m: Mode, h: History, fuel: nat, brk: bool, cnt: bool,
        sw: SwitchCtx)
    requires Legal(s, brk, cnt, sw) && Enters(s, m)
    ensures var r := Exec(w, s, m, h, fuel);
            r.Some? ==> (r.value.0 == Broke ==> brk) && (r.value.0 == Continued ==> cnt)
    decreases s
  {
    hide LoopBody, LoopTest, Truth, CaseValues;
    match s
    case Seq(a, b) =>
      if m.Seek? && Contains(b, m.t) {
        NoStrayExit(w, b, m, h, fuel, brk, cnt, With(sw, CaseValues(a)));
      } else {
        var r := Exec(w, a, m, h, fuel);
        NoStrayExit(w, a, m, h, fuel, brk, cnt, sw);
        if r.Some? {
          NoStrayExit(w, b, FromStart, r.value.1, fuel, brk, cnt, With(sw, CaseValues(a)));
        }
      }
    case If(c, thn) => NoStrayExit(w, thn, m, if m.Seek? then h else Truth(w, c, h).1, fuel, brk, cnt, sw);
    case IfElse(c, thn, els) =>
      var h1 := if m.Seek? then h else Truth(w, c, h).1;
      if Enters(thn, m) { NoStrayExit(w, thn, m, h1, fuel, brk, cnt, sw); }
      if Enters(els, m) { NoStrayExit(w, els, m, h1, fuel, brk, cnt, With(sw, CaseValues(thn))); }
    case While(c, body) =>
      LoopOutcome(w, Some(c), None, body, m, h, fuel);
    case Do(body, c) => LoopOutcome(w, c, None, body, m, h, fuel);
    case For(init, c, step, body) =>
      LoopOutcome(w, c, step, body, m, h, fuel);
      TestOutcome(w, c, step, body, After(h, init), fuel);
    case Case(v, s1) =>
      NoStrayExit(w, s1, if m.Seek? && Contains(s1, m.t) then m else FromStart, h, fuel, brk, cnt, With(sw, [Short(v)]));
    case Default(s1) =>
      NoStrayExit(w, s1, if m.Seek? && Contains(s1, m.t) then m else FromStart, h, fuel, brk, cnt, sw);
    case Switch(a, body) =>
      var h1 := h + [Switched(a)];
      var t := Chosen(body, Selector(w, h1));
      if t.Some? {
        NoStrayExit(w, body, Seek(t.value), h1, fuel, true, cnt, InSwitch(Used(sw), []));
      }
    case _ =>
  }
}
