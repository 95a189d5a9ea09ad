/** The first pass as it runs: labels and code are global state, updated while
    the statement is read. */
module StmtParser {
  import opened Machine
  import opened Options
  import opened Flow
  import opened SwitchTable
  import opened FirstPass
  import opened Words

  lemma {:induction false} InsertFront(t: seq<Entry>, e: Entry)
    requires forall i :: 0 <= i < |t| ==> e.value < t[i].value
    ensures Insert(t, e) == [e] + t
  {
    if t != [] {
      InsertFront(t[..|t| - 1], e);
      assert t == t[..|t| - 1] + [t[|t| - 1]];
    }
  }

  lemma {:induction false} InsertBehind(h: Entry, t: seq<Entry>, e: Entry)
    requires h.value < e.value
    ensures Insert([h] + t, e) == [h] + Insert(t, e)
  {
    if t == [] {
      assert [h] + t == [h];
    } else {
      var t', l := t[..|t| - 1], t[|t| - 1];
      assert ([h] + t)[..|[h] + t| - 1] == [h] + t';
      if l.value < e.value {
        assert [h] + t + [e] == [h] + (t + [e]);
      } else {
        InsertBehind(h, t', e);
        assert [h] + Insert(t', e) + [l] == [h] + (Insert(t', e) + [l]);
      }
    }
  }

  /** The row of entries when the new one has been bubbled down to k or above. */
  ghost predicate Bubbled(row: seq<Entry>, t: seq<Entry>, k: nat, e: Entry)
    requires k <= |t|
  {
    && row == t[..k] + Insert(t[k..], e)
    && forall i :: k <= i < |t| ==> t[i].value != e.value
  }

  function Swapped(row: seq<Entry>, k: nat): seq<Entry>
    requires 0 < k < |row|
  {
    row[k := row[k - 1]][k - 1 := row[k]]
  }

  /** One turn of the bubble loop. */
  lemma BubbleStep(row: seq<Entry>, t: seq<Entry>, k: nat, e: Entry)
    requires Increasing(t) && 0 < k <= |t| && Bubbled(row, t, k, e) && |row| == |t| + 1
    ensures row[k].value == row[k - 1].value ==> t[k - 1].value == e.value
    ensures row[k].value < row[k - 1].value ==> Bubbled(Swapped(row, k), t, k - 1, e)
    ensures row[k].value > row[k - 1].value ==> Bubbled(row, t, k - 1, e)
  {
    hide Insert;
    var tail := Insert(t[k..], e);
    HeadOfInsert(t, k, e);
    assert row[k] == tail[0] && row[k - 1] == t[k - 1];
    assert t[..k] == t[..k - 1] + [t[k - 1]];
    assert t[k - 1..] == [t[k - 1]] + t[k..];
    if row[k].value < row[k - 1].value {
      InsertFront(t[k..], e);
      InsertFront(t[k - 1..], e);
      assert Swapped(row, k) == t[..k - 1] + ([e] + t[k - 1..]);
    } else if row[k].value > row[k - 1].value {
      InsertBehind(t[k - 1], t[k..], e);
      assert row == t[..k - 1] + ([t[k - 1]] + tail);
    }
  }

  /** Bubbles a new entry down to its place behind `ncases` increasing ones. */
  method AddSwitch(tab: array<Entry>, base: nat, ncases: nat, nval: int, nlab: Label) returns (ok: bool)
    requires base + ncases < tab.Length
    modifies tab
    ensures tab[..base] == old(tab[..base])
    ensures var t := old(tab[base..base + ncases]);
            Increasing(t) ==>
              && (ok <==> Short(nval) !in Values(t))
              && (ok ==> tab[base..base + ncases + 1] == Insert(t, Entry(Short(nval), nlab)))
  {
    hide Increasing, Values, Insert;
    ghost var t := tab[base..base + ncases];
    ghost var e := Entry(Short(nval), nlab);
    var end := base + ncases + 1;
    tab[base + ncases] := Entry(Short(nval), nlab);
    BubbleStart(tab[base..end], t, e);
    var k := ncases;
    while k > 0
      invariant 0 <= k <= ncases
      invariant tab[..base] == old(tab[..base])
      invariant Increasing(t) ==> Bubbled(tab[base..end], t, k, e)
    {
      var s := base + k;
      ghost var row := tab[base..end];
      assert row[k] == tab[s] && row[k - 1] == tab[s - 1];
      if Increasing(t) { BubbleStep(row, t, k, e); ValueIn(t, k - 1); }
      if tab[s].value == tab[s - 1].value {
        return false;
      }
      if tab[s].value < tab[s - 1].value {
        tab[s], tab[s - 1] := tab[s - 1], tab[s];
        assert tab[base..end] == Swapped(row, k);
      }
      k := k - 1;
    }
    ok := true;
    if Increasing(t) { BubbleEnd(tab[base..end], t, e); }
  }

  lemma BubbleStart(row: seq<Entry>, t: seq<Entry>, e: Entry)
    requires row == t + [e]
    ensures Bubbled(row, t, |t|, e)
  {
    assert t[|t|..] == [];
    assert t[..|t|] == t;
  }

  lemma BubbleEnd(row: seq<Entry>, t: seq<Entry>, e: Entry)
    requires Bubbled(row, t, 0, e)
    ensures row == Insert(t, e) && e.value !in Values(t)
  {
    assert t[0..] == t;
    assert t[..0] + Insert(t, e) == Insert(t, e);
  }

  lemma ValueIn(t: seq<Entry>, i: nat)
    requires i < |t|
    ensures t[i].value in Values(t)
  {
    assert Values(t)[i] == t[i].value;
  }

  /** The first entry from k on, once e is among them, is e exactly when e is
      smaller than all of them. */
  lemma HeadOfInsert(t: seq<Entry>, k: nat, e: Entry)
    requires Increasing(t) && 0 < k <= |t| && forall i :: k <= i < |t| ==> t[i].value != e.value
    ensures |Insert(t[k..], e)| == |t| - k + 1
    ensures var head := Insert(t[k..], e)[0];
            && (head.value <= t[k - 1].value ==> head == e && forall i :: k <= i < |t| ==> e.value < t[i].value)
            && (head.value > t[k - 1].value ==> e.value > t[k - 1].value)
  {
    if k == |t| {
      assert t[k..] == [];
    } else if e.value < t[k].value {
      InsertFront(t[k..], e);
    } else {
      assert t[k..] == [t[k]] + t[k + 1..];
      InsertBehind(t[k], t[k + 1..], e);
      InsertLength(t[k..], e);
    }
  }

  lemma {:induction false} InsertLength(t: seq<Entry>, e: Entry)
    ensures |Insert(t, e)| == |t| + 1
  {
    if t != [] {
      InsertLength(t[..|t| - 1], e);
    }
  }

  // The pieces a construct sends out one after another make up its code.

  lemma Assoc3<T>(a: seq<T>, b: seq<T>, c: seq<T>)
    ensures a + b + c == a + (b + c)
  {
  }

  lemma WhilePieces(c0: Code, c: Cond, n: Label, body: Code)
    ensures c0 + [Goto(n + 2)] + [Lab(n + 1)] + body + [Lab(n + 2)] + [IfGoto(c, true, n + 1)] + [Lab(n)] ==
            c0 + ([Goto(n + 2)] + LoopCode(n + 1, body, n + 2, None, Tail(Some(c), 0, n + 1), n))
  {
  }

  lemma DoPieces(c0: Code, c: Option<Cond>, n: Label, body: Code)
    ensures c0 + [Lab(n + 2)] + body + [Lab(n + 1)] + [if c.None? then Goto(n + 2) else IfGoto(c.value, true, n + 2)] + [Lab(n)] ==
            c0 + LoopCode(n + 2, body, n + 1, None, Tail(c, 0, n + 2), n)
  {
  }

  lemma ForPieces(c0: Code, init: Option<Atom>, c: Option<Cond>, step: Option<Atom>, n: Label, body: Code)
    ensures var m := if c.Some? then n + 3 else n + 2;
            var loop := LoopCode(m, body, n + 1, step, Tail(c, if c.Some? then n + 2 else 0, m), n);
            ForHeadCode(c0, init, c, n) + body + ForTailCode(c, step, n) ==
            c0 + (EvalCode(init) + if c.None? then loop else [Goto(n + 2)] + loop)
  {
    hide EvalCode;
  }

  function ForHeadCode(c0: Code, init: Option<Atom>, c: Option<Cond>, n: Label): Code {
    c0 + EvalCode(init) + (if c.Some? then [Goto(n + 2), Lab(n + 3)] else [Lab(n + 2)])
  }

  function ForTailCode(c: Option<Cond>, step: Option<Atom>, n: Label): Code {
    [Lab(n + 1)] + EvalCode(step) +
    (if c.Some? then [Lab(n + 2), IfGoto(c.value, true, n + 3), Lab(n)] else [Goto(n + 2), Lab(n)])
  }

  lemma EmptyTable()
    ensures Table([]) == [] && Values([]) == [] && Distinct([])
  {
  }

  lemma ElsePieces(c0: Code, c: Cond, thn: Code, els: Code, l1: Label, l2: Label)
    ensures c0 + [IfGoto(c, false, l1)] + thn + [Goto(l2)] + [Lab(l1)] + els + [Lab(l2)] ==
            c0 + IfElseCode(c, thn, els, l1, l2)
  {
  }

  lemma SwitchPieces(c0: Code, a: Atom, g: Emitted, n: Label)
    ensures c0 + [Eval(Switched(a))] + [Goto(n + 1)] + g.code + SwitchTail(g, n) == c0 + SwitchCode(a, g, n)
  {
  }

  lemma DistinctEntries(t: seq<Entry>)
    requires Distinct(Values(t))
    ensures forall i, j :: 0 <= i < j < |t| ==> t[i].value != t[j].value
  {
    forall i, j | 0 <= i < j < |t| ensures t[i].value != t[j].value {
      assert Values(t)[i] != Values(t)[j];
    }
  }

  lemma SameValues(t: seq<Entry>)
    requires multiset(Table(t)) == multiset(t)
    ensures forall v :: v in Values(Table(t)) <==> v in Values(t)
  {
    forall e: Entry ensures e in Table(t) <==> e in t {
      assert e in Table(t) <==> e in multiset(Table(t));
      assert e in t <==> e in multiset(t);
    }
    ValuesSubset(Table(t), t);
    ValuesSubset(t, Table(t));
  }

  lemma TableGrows(t: seq<Entry>, e: Entry)
    ensures Table(t + [e]) == Insert(Table(t), e)
    ensures Values(t + [e]) == Values(t) + [e.value]
    ensures Distinct(Values(t)) && e.value !in Values(t) ==> Distinct(Values(t + [e]))
  {
    assert (t + [e])[..|t|] == t;
  }

  class Parser {
    var code: Code
    var errors: nat
    var nextlabel: Label
    var blabel: Label
    var clabel: Label
    var rlabel: Label
    var dlabel: Label
    var swp: int                    // next free entry, -1 outside switches
    var cswp: int                   // first entry of the innermost switch
    const swtab: array<Entry>
    ghost var cases: seq<Entry>     // its entries in the order of the text

    ghost predicate Valid()
      reads `swp, `cswp, `cases, `errors, swtab
    {
      && swtab.Length == SWSIZE && -1 <= swp < SWSIZE
      && (swp < 0 ==> cases == [])
      && (swp >= 0 ==> 0 <= cswp <= swp && |cases| == swp - cswp)
      && (swp >= 0 && errors == 0 ==> swtab[cswp..swp] == Table(cases) && Distinct(Values(cases)))
    }

    ghost function Sw(): SwitchCtx
      reads `swp, `cswp, `cases
    {
      if swp < 0 then NoSwitch else InSwitch(if cswp < 0 then 0 else cswp, Values(cases))
    }

    ghost function Labels(): Ctx
      reads `blabel, `clabel, `rlabel
    {
      Ctx(blabel, clabel, rlabel)
    }

    /** What reading s does to the state: labels in force and the outer part of
        the switch table are as before; an error is reported exactly when s is not
        legal here; and without errors the code, the next label, the entries and
        the default label are those Emit says. */
    twostate predicate Read(s: Stmt)
      reads this, swtab
    {
      && Valid()
      && Labels() == old(Labels()) && cswp == old(cswp) && nextlabel >= old(nextlabel)
      && swp >= old(swp) && (swp < 0 <==> old(swp) < 0) && errors >= old(errors)
      && (swp >= 0 ==> swtab[..cswp] == old(swtab[..cswp]))
      && (old(errors) == 0 ==> (errors == 0 <==> Legal(s, old(blabel) > 0, old(clabel) > 0, old(Sw()))))
      && (errors == 0 ==>
            var g := Emit(s, old(Labels()), old(nextlabel));
            && code == old(code) + g.code && nextlabel == g.next && cases == old(cases) + g.cases
            && dlabel == (if g.dflt > 0 then g.dflt else old(dlabel))
            && Sw() == With(old(Sw()), CaseValues(s)))
    }

    constructor (first: Label, ret: Label)
      requires first > 0 && ret > 0
      ensures Valid() && fresh(swtab)
      ensures code == [] && errors == 0 && nextlabel == first && Labels() == Ctx(0, 0, ret) && dlabel == 0
      ensures swp == -1 && cases == []
    {
      code, errors, nextlabel, blabel, clabel, rlabel, dlabel := [], 0, first, 0, 0, ret, 0;
      swp, cswp, cases := -1, 0, [];
      swtab := new Entry[SWSIZE](_ => Entry(0, 0));
    }

    method Out(i: Instr)
      modifies `code
      ensures code == old(code) + [i]
    {
      code := code + [i];
    }

    /** OUTGOTO prints nothing for label 0. */
    method OutGoto(l: Label)
      modifies `code
      ensures code == old(code) + GotoCode(l)
    {
      if l > 0 {
        Out(Goto(l));
      }
    }

    method BrkLabel() returns (l: Label)
      modifies `errors
      ensures old(Valid()) ==> Valid()
      ensures l == blabel && errors == old(errors) + if blabel == 0 then 1 else 0
    {
      if blabel == 0 {
        errors := errors + 1;
      }
      return blabel;
    }

    method ContLabel() returns (l: Label)
      modifies `errors
      ensures old(Valid()) ==> Valid()
      ensures l == clabel && errors == old(errors) + if clabel == 0 then 1 else 0
    {
      if clabel == 0 {
        errors := errors + 1;
      }
      return clabel;
    }

    method Stmt(s: Stmt)
      requires Valid() && nextlabel > 0 && rlabel > 0
      modifies this, swtab
      ensures Read(s)
      decreases s, 2
    {
      hide Emit, Legal, Contains, Values;
      match s
      case Null => Simple(s);
      case Expr(_) => Simple(s);
      case Break => Simple(s);
      case Continue => Simple(s);
      case Return(_) => Simple(s);
      case Seq(a, b) => DoSeq(a, b);
      case If(c, thn) => DoIf(c, thn);
      case IfElse(c, thn, els) => DoIfElse(c, thn, els);
      case While(c, body) => DoWhile(c, body);
      case Do(body, c) => DoDo(body, c);
      case For(init, c, step, body) => DoFor(init, c, step, body);
      case Switch(a, body) => DoSwitch(a, body);
      case Case(v, s1) => DoCase(v, s1);
      case Default(s1) => DoDefault(s1);
    }

    lemma NothingAdded()
      ensures Sw() == With(Sw(), []) && cases == cases + []
    {
      if swp >= 0 {
        assert Values(cases) + [] == Values(cases);
      }
    }

    method Simple(s: Stmt)
      requires s.Null? || s.Expr? || s.Break? || s.Continue? || s.Return?
      requires Valid() && nextlabel > 0 && rlabel > 0
      modifies this
      ensures Read(s)
    {
      hide Values, Table;
      NothingAdded();
      match s
      case Expr(a) => Out(Eval(Did(a)));
      case Break =>
        var l := BrkLabel();
        OutGoto(l);
      case Continue =>
        var l := ContLabel();
        OutGoto(l);
      case Return(e) =>
        if e.Some? {
          Out(Eval(Returned(e.value)));
        }
        OutGoto(rlabel);
      case _ =>
    }

    /** The entries after two parts are those of the one and then of the other. */
    lemma TwoParts(sw: SwitchCtx, a: seq<int>, b: seq<int>)
      ensures With(With(sw, a), b) == With(sw, a + b)
    {
      if sw.InSwitch? {
        assert sw.values + a + b == sw.values + (a + b);
      }
    }

    method DoSeq(a: Stmt, b: Stmt)
      requires Valid() && nextlabel > 0 && rlabel > 0
      modifies this, swtab
      ensures Read(Seq(a, b))
      decreases Seq(a, b), 1
    {
      hide Values, Table, Contains, Valid, Sw, Emit, Legal, CaseValues, With;
      SeqMeaning(a, b, Labels(), nextlabel, Sw());
      ghost var c0, k0 := code, cases;
      ghost var g1 := Emit(a, Labels(), nextlabel);
      ghost var g2 := Emit(b, Labels(), g1.next);
      TwoParts(Sw(), CaseValues(a), CaseValues(b));
      Stmt(a);
      Stmt(b);
      assert errors == 0 ==> code == c0 + (g1.code + g2.code);
      assert errors == 0 ==> cases == k0 + (g1.cases + g2.cases);
    }

    /** The exit label of `if (...) break;` and its like, 0 for other statements. */
    method ExitLabel(thn: Stmt) returns (l: Label)
      modifies `errors
      ensures old(Valid()) ==> Valid()
      ensures l == JumpLabel(thn, Labels())
      ensures errors == old(errors) + if (thn.Break? && blabel == 0) || (thn.Continue? && clabel == 0) then 1 else 0
    {
      match thn
      case Break => l := BrkLabel();
      case Continue => l := ContLabel();
      case Return(None) => l := rlabel;
      case _ => l := 0;
    }

    /** The guarded statement: of a misplaced jump only the semicolon is left. */
    method Guarded(thn: Stmt)
      requires Valid() && nextlabel > 0 && rlabel > 0 && (thn.Break? || thn.Continue? ==> errors > 0)
      modifies this, swtab
      ensures if thn.Break? || thn.Continue? then Read(Null) else Read(thn)
      decreases thn, 3
    {
      if thn.Break? || thn.Continue? {
        Simple(Null);
      } else {
        Stmt(thn);
      }
    }

    method DoIf(c: Cond, thn: Stmt)
      requires Valid() && nextlabel > 0 && rlabel > 0
      modifies this, swtab
      ensures Read(If(c, thn))
      decreases If(c, thn), 1
    {
      hide Values, Table, Contains, Emit, Legal, CaseValues, Increasing, Distinct, LoopCode, IfElseCode,
           SwitchCode, Tail, Valid, Sw;
      IfMeaning(c, thn, Labels(), nextlabel, Sw());
      JumpMeaning(thn, Labels(), Sw());
      NothingAdded();
      var exitlab := ExitLabel(thn);
      if exitlab > 0 {
        Out(IfGoto(c, true, exitlab));
      } else {
        HardIf(c, thn);
      }
    }

    /** The branch over the guarded statement. */
    method HardIf(c: Cond, thn: Stmt)
      requires Valid() && nextlabel > 0 && rlabel > 0 && JumpLabel(thn, Labels()) == 0
      requires thn.Break? || thn.Continue? ==> errors > 0
      modifies this, swtab
      ensures Read(If(c, thn))
      decreases If(c, thn), 0
    {
      hide Values, Table, Contains, Emit, Legal, CaseValues, Increasing, Distinct, LoopCode, IfElseCode,
           SwitchCode, Tail, Valid, Sw;
      IfMeaning(c, thn, Labels(), nextlabel, Sw());
      ghost var c0 := code;
      var elselab := nextlabel;
      nextlabel := nextlabel + 1;
      ghost var g := Emit(thn, Labels(), nextlabel);
      Out(IfGoto(c, false, elselab));
      Guarded(thn);
      Out(Lab(elselab));
      assert errors == 0 ==> code == c0 + ([IfGoto(c, false, elselab)] + (g.code + [Lab(elselab)]));
    }

    method DoIfElse(c: Cond, thn: Stmt, els: Stmt)
      requires Valid() && nextlabel > 0 && rlabel > 0
      modifies this, swtab
      ensures Read(IfElse(c, thn, els))
      decreases IfElse(c, thn, els), 1
    {
      hide Values, Table, Contains, Emit, Legal, CaseValues, Increasing, Distinct, LoopCode, IfElseCode,
           SwitchCode, Tail, Valid, Sw, With;
      ElseMeaning(c, thn, els, Labels(), nextlabel, Sw());
      JumpMeaning(thn, Labels(), Sw());
      var exitlab := ExitLabel(thn);
      if exitlab > 0 {
        EasyElse(c, thn, els, exitlab);
      } else {
        HardElse(c, thn, els);
      }
    }

    method EasyElse(c: Cond, thn: Stmt, els: Stmt, exitlab: Label)
      requires Valid() && nextlabel > 0 && rlabel > 0 && exitlab > 0 && exitlab == JumpLabel(thn, Labels())
      modifies this, swtab
      ensures Read(IfElse(c, thn, els))
      decreases IfElse(c, thn, els), 0
    {
      hide Values, Table, Contains, Emit, Legal, CaseValues, Increasing, Distinct, LoopCode, IfElseCode,
           SwitchCode, Tail, Valid, Sw;
      ElseMeaning(c, thn, els, Labels(), nextlabel, Sw());
      JumpMeaning(thn, Labels(), Sw());
      NothingAdded();
      ghost var c0 := code;
      ghost var g := Emit(els, Labels(), nextlabel);
      Out(IfGoto(c, true, exitlab));
      Stmt(els);
      assert errors == 0 ==> code == c0 + ([IfGoto(c, true, exitlab)] + g.code);
      assert [] + CaseValues(els) == CaseValues(els);
    }

    method HardElse(c: Cond, thn: Stmt, els: Stmt)
      requires Valid() && nextlabel > 0 && rlabel > 0 && JumpLabel(thn, Labels()) == 0 && (thn.Break? || thn.Continue? ==> errors > 0)
      modifies this, swtab
      ensures Read(IfElse(c, thn, els))
      decreases IfElse(c, thn, els), 0
    {
      hide Values, Table, Contains, Emit, Legal, CaseValues, Increasing, Distinct, LoopCode, IfElseCode,
           SwitchCode, Tail, Valid, Sw, EvalCode, GotoCode;
      ghost var c0, k0 := code, cases;
      ElseMeaning(c, thn, els, Labels(), nextlabel, Sw());
      JumpMeaning(thn, Labels(), Sw());
      TwoParts(Sw(), CaseValues(thn), CaseValues(els));
      var elselab := nextlabel;
      nextlabel := nextlabel + 1;
      ghost var gt := Emit(thn, Labels(), nextlabel);
      code := code + [IfGoto(c, false, elselab)];
      Guarded(thn);
      var exitlab := nextlabel;
      nextlabel := nextlabel + 1;
      ghost var ge := Emit(els, Labels(), nextlabel);
      code := code + [Goto(exitlab)] + [Lab(elselab)];
      Stmt(els);
      code := code + [Lab(exitlab)];
      ElsePieces(c0, c, gt.code, ge.code, elselab, exitlab);
      Assoc3(k0, gt.cases, ge.cases);
    }

    method DoWhile(c: Cond, body: Stmt)
      requires Valid() && nextlabel > 0 && rlabel > 0
      modifies this, swtab
      ensures Read(While(c, body))
      decreases While(c, body), 1
    {
      hide Values, Table, Contains, Emit, Legal, CaseValues, Increasing, Distinct, LoopCode, IfElseCode,
           SwitchCode, Tail, Valid, Sw, EvalCode, GotoCode;
      ghost var c0, n := code, nextlabel;
      WhileMeaning(c, body, Labels(), n, blabel > 0, clabel > 0, Sw());
      var saveblab, saveclab := blabel, clabel;
      blabel, clabel, nextlabel := nextlabel, nextlabel + 1, nextlabel + 2;
      var lab := clabel;
      clabel, nextlabel := nextlabel, nextlabel + 1;
      ghost var g := Emit(body, Labels(), nextlabel);
      code := code + [Goto(clabel)] + [Lab(lab)];
      Stmt(body);
      code := code + [Lab(clabel)] + [IfGoto(c, true, lab)] + [Lab(blabel)];
      blabel, clabel := saveblab, saveclab;
      WhilePieces(c0, c, n, g.code);
    }

    method DoDo(body: Stmt, c: Option<Cond>)
      requires Valid() && nextlabel > 0 && rlabel > 0
      modifies this, swtab
      ensures Read(Do(body, c))
      decreases Do(body, c), 1
    {
      hide Values, Table, Contains, Emit, Legal, CaseValues, Increasing, Distinct, LoopCode, IfElseCode,
           SwitchCode, Tail, Valid, Sw, EvalCode, GotoCode;
      ghost var c0, n := code, nextlabel;
      DoMeaning(body, c, Labels(), n, blabel > 0, clabel > 0, Sw());
      var saveblab, saveclab := blabel, clabel;
      blabel, clabel, nextlabel := nextlabel, nextlabel + 1, nextlabel + 2;
      var lab := nextlabel;
      nextlabel := nextlabel + 1;
      ghost var g := Emit(body, Labels(), nextlabel);
      code := code + [Lab(lab)];
      Stmt(body);
      code := code + [Lab(clabel)] + [if c.None? then Goto(lab) else IfGoto(c.value, true, lab)] + [Lab(blabel)];
      blabel, clabel := saveblab, saveclab;
      DoPieces(c0, c, n, g.code);
    }

    method ForHead(init: Option<Atom>, c: Option<Cond>, ghost n: Label) returns (testlab: Label, stmtlab: Label)
      requires nextlabel == n + 2
      modifies `code, `nextlabel
      ensures code == ForHeadCode(old(code), init, c, n) && nextlabel == stmtlab + 1
      ensures if c.Some? then testlab == n + 2 && stmtlab == n + 3 else stmtlab == n + 2
    {
      if init.Some? {
        Out(Eval(Did(init.value)));
      }
      testlab := 0;
      if c.Some? {
        testlab := nextlabel;
        nextlabel := nextlabel + 1;
        Out(Goto(testlab));
      }
      stmtlab := nextlabel;
      nextlabel := nextlabel + 1;
      Out(Lab(stmtlab));
    }

    method ForTail(c: Option<Cond>, step: Option<Atom>, testlab: Label, stmtlab: Label)
      requires clabel == blabel + 1
      requires if c.Some? then testlab == blabel + 2 && stmtlab == blabel + 3 else stmtlab == blabel + 2
      modifies `code
      ensures code == old(code) + ForTailCode(c, step, blabel)
    {
      Out(Lab(clabel));
      if step.Some? {
        Out(Eval(Did(step.value)));
      }
      if c.Some? {
        Out(Lab(testlab));
        Out(IfGoto(c.value, true, stmtlab));
      } else {
        Out(Goto(stmtlab));
      }
      Out(Lab(blabel));
    }

    method DoFor(init: Option<Atom>, c: Option<Cond>, step: Option<Atom>, body: Stmt)
      requires Valid() && nextlabel > 0 && rlabel > 0
      modifies this, swtab
      ensures Read(For(init, c, step, body))
      decreases For(init, c, step, body), 1
    {
      hide Values, Table, Contains, Emit, Legal, CaseValues, Increasing, Distinct, LoopCode, IfElseCode,
           SwitchCode, Tail, Valid, Sw, EvalCode, GotoCode, ForHeadCode, ForTailCode;
      ghost var c0, n := code, nextlabel;
      ForMeaning(init, c, step, body, Labels(), n, blabel > 0, clabel > 0, Sw());
      var saveblab, saveclab := blabel, clabel;
      blabel, clabel, nextlabel := nextlabel, nextlabel + 1, nextlabel + 2;
      var testlab, stmtlab := ForHead(init, c, n);
      ghost var g := Emit(body, Labels(), nextlabel);
      Stmt(body);
      ForTail(c, step, testlab, stmtlab);
      blabel, clabel := saveblab, saveclab;
      ForPieces(c0, init, c, step, n, g.code);
    }

    /** A new switch: its part of the table starts where the outer one ends. */
    method OpenSwitch()
      requires Valid()
      modifies `swp, `cswp, `cases
      ensures Valid() && swp >= 0 && cswp == swp == (if old(swp) < 0 then 0 else old(swp)) && cases == []
      ensures Sw() == InSwitch(Used(old(Sw())), [])
    {
      EmptyTable();
      if swp < 0 {
        swp := swp + 1;
      }
      cswp := swp;
      cases := [];
    }

    /** Back in the outer switch: its entries, its count and its place are untouched. */
    twostate lemma OuterKept(k: nat)
      requires old(Valid()) && swp == old(swp) && cswp == old(cswp) && cases == old(cases) && errors >= old(errors)
      requires swp >= 0 ==> k == swp && swtab.Length == SWSIZE && swtab[..k] == old(swtab[..k])
      ensures Valid() && Sw() == old(Sw()) && Sw() == With(Sw(), []) && cases == cases + []
      ensures swp >= 0 ==> swtab[..cswp] == old(swtab[..cswp])
    {
      NothingAdded();
      if swp >= 0 {
        assert swtab[cswp..swp] == swtab[..k][cswp..];
        assert old(swtab[cswp..swp]) == old(swtab[..k])[cswp..];
        assert swtab[..cswp] == swtab[..k][..cswp];
        assert old(swtab[..cswp]) == old(swtab[..k])[..cswp];
      }
    }

    method DoSwitch(a: Atom, body: Stmt)
      requires Valid() && nextlabel > 0 && rlabel > 0
      modifies this, swtab
      ensures Read(Switch(a, body))
      decreases Switch(a, body), 1
    {
      hide Values, Table, Contains, Emit, Legal, CaseValues, Increasing, Distinct, LoopCode, IfElseCode,
           SwitchCode, Tail, Valid, Sw, EvalCode, GotoCode, SwitchTail, Used;
      ghost var c0, n, k0 := code, nextlabel, cases;
      SwitchMeaning(a, body, Labels(), n, blabel > 0, clabel > 0, Sw());
      var saveblab := blabel;
      blabel, nextlabel := nextlabel, nextlabel + 1;
      code := code + [Eval(Switched(a))];
      var swlab := nextlabel;
      nextlabel := nextlabel + 1;
      code := code + [Goto(swlab)];
      NothingAdded();
      ghost var g := Emit(body, Labels(), nextlabel);
      SwitchBody(body, swlab);
      SwitchPieces(c0, a, g, n);
      blabel := saveblab;
    }

    /** The body of a switch in its own part of the table, and the operator. */
    method SwitchBody(body: Stmt, swlab: Label)
      requires Valid() && blabel > 0 && swlab == blabel + 1 && nextlabel == swlab + 1 && rlabel > 0
      modifies this, swtab
      ensures Valid() && Labels() == old(Labels()) && dlabel == old(dlabel)
      ensures swp == old(swp) && cswp == old(cswp) && cases == old(cases) && Sw() == old(Sw())
      ensures swp >= 0 ==> swtab[..cswp] == old(swtab[..cswp])
      ensures errors >= old(errors) && nextlabel >= old(nextlabel)
      ensures old(errors) == 0 ==> (errors == 0 <==> Legal(body, true, clabel > 0, InSwitch(Used(old(Sw())), [])))
      ensures var g := Emit(body, Labels(), old(nextlabel));
              errors == 0 ==> code == old(code) + g.code + SwitchTail(g, blabel) && nextlabel == g.next
      decreases body, 4
    {
      hide Values, Table, Contains, Emit, Legal, CaseValues, Increasing, Distinct, LoopCode, IfElseCode,
           SwitchCode, Tail, Valid, Sw, EvalCode, GotoCode, Used;
      ghost var k0 := cases;
      var saveswp, savecswp, savedlab := swp, cswp, dlabel;
      OpenSwitch();
      dlabel := 0;
      ghost var base, g := cswp, Emit(body, Labels(), nextlabel);
      Stmt(body);
      CloseSwitch(swlab, g, blabel);
      cswp, swp, dlabel, cases := savecswp, saveswp, savedlab, k0;
      OuterKept(base);
    }

    /** The switch operator after the body, with the table of this switch. */
    method CloseSwitch(swlab: Label, ghost g: Emitted, ghost n: Label)
      requires Valid() && swp >= 0
      modifies `code, `dlabel
      ensures errors == 0 && blabel == n && swlab == n + 1 && cases == g.cases && old(dlabel) == g.dflt && n > 0 ==>
          code == old(code) + SwitchTail(g, n)
    {
      code := code + GotoCode(blabel) + [Lab(swlab)];
      if dlabel == 0 {
        dlabel := blabel;
      }
      code := code + [Jump(swtab[cswp..swp], dlabel)] + [Lab(blabel)];
    }

    /** The case label itself; what it does to the switch table. */
    method AddCase(v: int)
      requires Valid()
      modifies this, swtab
      ensures Valid() && Labels() == old(Labels()) && cswp == old(cswp) && dlabel == old(dlabel)
      ensures swp >= old(swp) && (swp < 0 <==> old(swp) < 0) && nextlabel >= old(nextlabel)
      ensures swp >= 0 ==> swtab[..cswp] == old(swtab[..cswp])
      ensures var sw := old(Sw());
              var fits := sw.InSwitch? && Used(sw) < SWSIZE - 1 && Short(v) !in sw.values;
              && errors >= old(errors) && (old(errors) == 0 ==> (errors == 0 <==> fits))
              && (errors == 0 ==>
                    && code == old(code) + [Lab(old(nextlabel))] && nextlabel == old(nextlabel) + 1
                    && cases == old(cases) + [Entry(Short(v), old(nextlabel))] && Sw() == With(sw, [Short(v)]))
    {
      hide Increasing, Insert;
      if swp < 0 {
        errors := errors + 1;
      } else if swp >= SWSIZE - 1 {
        errors := errors + 1;
      } else {
        ghost var t := swtab[cswp..swp];
        if errors == 0 { SwitchState(); }
        var ok := AddSwitch(swtab, cswp, swp - cswp, v, nextlabel);
        if ok {
          if errors == 0 { TableGrows(cases, Entry(Short(v), nextlabel)); }
          cases := cases + [Entry(Short(v), nextlabel)];
          Out(Lab(nextlabel));
          nextlabel := nextlabel + 1;
          swp := swp + 1;
        } else {
          errors := errors + 1;
        }
      }
    }

    lemma SwitchState()
      requires Valid() && errors == 0 && swp >= 0
      ensures Increasing(swtab[cswp..swp])
      ensures forall v :: v in Values(swtab[cswp..swp]) <==> v in Values(cases)
    {
      DistinctEntries(cases);
      TableCorrect(cases);
      SameValues(cases);
    }

    method DoCase(v: int, s1: Stmt)
      requires Valid() && nextlabel > 0 && rlabel > 0
      modifies this, swtab
      ensures Read(Case(v, s1))
      decreases Case(v, s1), 1
    {
      hide Contains, Values, Table, Emit, Legal, CaseValues, Valid, Sw;
      ghost var c0, n, k0 := code, nextlabel, cases;
      CaseMeaning(v, s1, Labels(), nextlabel, blabel > 0, clabel > 0, Sw());
      TwoParts(Sw(), [Short(v)], CaseValues(s1));
      AddCase(v);
      ghost var g := Emit(s1, Labels(), nextlabel);
      Stmt(s1);
      assert errors == 0 ==> code == c0 + ([Lab(n)] + g.code);
      assert errors == 0 ==> cases == k0 + ([Entry(Short(v), n)] + g.cases);
    }

    method DoDefault(s1: Stmt)
      requires Valid() && nextlabel > 0 && rlabel > 0
      modifies this, swtab
      ensures Read(Default(s1))
      decreases Default(s1), 1
    {
      hide Contains, Values, Table, Emit, Legal, CaseValues, With, Increasing, Distinct;
      DefaultMeaning(s1, Labels(), nextlabel, blabel > 0, clabel > 0, Sw());
      ghost var c0, n := code, nextlabel;
      if swp < 0 {
        errors := errors + 1;
      } else {
        dlabel := nextlabel;
        nextlabel := nextlabel + 1;
        Out(Lab(dlabel));
      }
      ghost var g := Emit(s1, Labels(), nextlabel);
      Stmt(s1);
      assert errors == 0 ==> code == c0 + ([Lab(n)] + g.code);
    }
  }
}
