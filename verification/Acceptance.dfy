/** Which statements are accepted, told from what stands around each of their parts. */
module Acceptance {
  import opened Flow
  import opened Words

  // ----- places in a statement -----

  /** The statements directly inside s, in the order of the text. */
  function Parts(s: Stmt): seq<Stmt> {
    match s
    case Seq(a, b) => [a, b]
    case If(_, thn) => [thn]
    case IfElse(_, thn, els) => [thn, els]
    case While(_, body) => [body]
    case Do(body, _) => [body]
    case For(_, _, _, body) => [body]
    case Switch(_, body) => [body]
    case Case(_, s1) => [s1]
    case Default(s1) => [s1]
    case _ => []
  }

  /** A way down from s: which part to go to, and so on. */
  type Path = seq<nat>

  predicate Place(s: Stmt, p: Path) {
    p == [] || (p[0] < |Parts(s)| && Place(Parts(s)[p[0]], p[1..]))
  }

  function At(s: Stmt, p: Path): Stmt
    requires Place(s, p)
    decreases |p|
  {
    if p == [] then s else At(Parts(s)[p[0]], p[1..])
  }

  /** Something of this kind, s itself or further down, is around p. */
  predicate Inside(kind: Stmt -> bool, s: Stmt, p: Path)
    requires Place(s, p)
    decreases |p|
  {
    p != [] && (kind(s) || Inside(kind, Parts(s)[p[0]], p[1..]))
  }

  predicate IsLoop(s: Stmt) { s.While? || s.Do? || s.For? }
  predicate IsSwitch(s: Stmt) { s.Switch? }
  predicate IsLoopOrSwitch(s: Stmt) { s.While? || s.Do? || s.For? || s.Switch? }

  function CasesIn(ss: seq<Stmt>): nat {
    if ss == [] then 0 else CasesIn(ss[..|ss| - 1]) + |CaseValues(ss[|ss| - 1])|
  }

  /** Case labels in front of p, in all the switches around it. */
  function CasesBefore(s: Stmt, p: Path): nat
    requires Place(s, p)
    decreases |p|
  {
    if p == [] then 0
    else (if s.Case? then 1 else 0) + CasesIn(Parts(s)[..p[0]]) + CasesBefore(Parts(s)[p[0]], p[1..])
  }

  /** What is asked of the place p. */
  predicate Allowed(s: Stmt, p: Path)
    requires Place(s, p)
  {
    var t := At(s, p);
    && (t.Break? ==> Inside(IsLoopOrSwitch, s, p))
    && (t.Continue? ==> Inside(IsLoop, s, p))
    && (t.Case? || t.Default? ==> Inside(IsSwitch, s, p))
    && (t.Case? ==> CasesBefore(s, p) < 255)
    && (t.Switch? ==> Distinct(CaseValues(t.body)))
  }

  ghost predicate Acceptable(s: Stmt) {
    forall p :: Place(s, p) ==> Allowed(s, p)
  }

  // ----- inside something larger -----

  datatype Around = Around(brk: bool, cnt: bool, sw: SwitchCtx)

  /** The same, with more around s. */
  predicate AllowedIn(x: Around, s: Stmt, p: Path)
    requires Place(s, p)
  {
    var t := At(s, p);
    && (t.Break? ==> x.brk || Inside(IsLoopOrSwitch, s, p))
    && (t.Continue? ==> x.cnt || Inside(IsLoop, s, p))
    && (t.Case? || t.Default? ==> x.sw.InSwitch? || Inside(IsSwitch, s, p))
    && (t.Case? ==> Used(x.sw) + CasesBefore(s, p) < 255)
    && (t.Switch? ==> Distinct(CaseValues(t.body)))
  }

  ghost predicate AllAllowed(x: Around, s: Stmt) {
    forall p :: Place(s, p) ==> AllowedIn(x, s, p)
  }

  /** What is around part i. */
  function Within(x: Around, s: Stmt, i: nat): Around
    requires i < |Parts(s)|
  {
    Around(x.brk || IsLoopOrSwitch(s), x.cnt || IsLoop(s),
           if s.Switch? then InSwitch(Used(x.sw), []) else With(x.sw, ValuesBefore(s, i)))
  }

  function ValuesBefore(s: Stmt, i: nat): seq<int>
    requires i < |Parts(s)|
  {
    if i == 1 then CaseValues(Parts(s)[0]) else if s.Case? then [Short(s.v)] else []
  }

  function LegalIn(x: Around, s: Stmt): bool { Legal(s, x.brk, x.cnt, x.sw) }

  lemma WithNothing(sw: SwitchCtx)
    ensures With(sw, []) == sw
  {
    if sw.InSwitch? {
      assert sw.values + [] == sw.values;
    }
  }

  lemma WithinOne(x: Around, s: Stmt)
    requires |Parts(s)| >= 1
    ensures Within(x, s, 0).sw ==
            if s.Switch? then InSwitch(Used(x.sw), []) else if s.Case? then With(x.sw, [Short(s.v)]) else x.sw
    ensures |Parts(s)| == 2 ==> Within(x, s, 1).sw == With(x.sw, CaseValues(Parts(s)[0]))
  {
    WithNothing(x.sw);
  }

  lemma LegalParts(x: Around, s: Stmt)
    ensures LegalIn(x, s) <==>
            && (s.Break? ==> x.brk) && (s.Continue? ==> x.cnt) && (s.Case? || s.Default? ==> x.sw.InSwitch?)
            && (s.Case? ==> Used(x.sw) < 255 && Short(s.v) !in x.sw.values)
            && forall i :: 0 <= i < |Parts(s)| ==> LegalIn(Within(x, s, i), Parts(s)[i])
  {
    if |Parts(s)| >= 1 {
      WithinOne(x, s);
      assert |Parts(s)| <= 2;
      var first := Parts(s)[0];
      if forall i :: 0 <= i < |Parts(s)| ==> LegalIn(Within(x, s, i), Parts(s)[i]) {
        assert LegalIn(Within(x, s, 0), first);
      }
    }
  }

  lemma PlaceDown(s: Stmt, i: nat, p: Path)
    requires i < |Parts(s)|
    ensures Place(s, [i] + p) <==> Place(Parts(s)[i], p)
    ensures Place(Parts(s)[i], p) ==>
              && At(s, [i] + p) == At(Parts(s)[i], p)
              && (forall k :: Inside(k, s, [i] + p) <==> k(s) || Inside(k, Parts(s)[i], p))
              && CasesBefore(s, [i] + p)
                 == (if s.Case? then 1 else 0) + CasesIn(Parts(s)[..i]) + CasesBefore(Parts(s)[i], p)
  {
    assert ([i] + p)[1..] == p;
  }

  /** A case in front of part i that is not in a switch is not legal, and not allowed. */
  lemma CasesBeforePart(x: Around, s: Stmt, i: nat)
    requires i < |Parts(s)| && !s.Switch?
    ensures (if s.Case? then 1 else 0) + CasesIn(Parts(s)[..i]) == |ValuesBefore(s, i)|
  {
    assert Parts(s)[..i] == if i == 0 then [] else [Parts(s)[0]];
    assert [Parts(s)[0]][..0] == [];
    assert CasesIn([]) == 0 && CasesIn([Parts(s)[0]]) == |CaseValues(Parts(s)[0])|;
  }

  /** What is allowed of a place in part i is what is allowed of it in s. */
  lemma AllowedDown(x: Around, s: Stmt, i: nat, p: Path)
    requires i < |Parts(s)| && Place(Parts(s)[i], p)
    requires s.Switch? || x.sw.InSwitch? || ValuesBefore(s, i) == []
    ensures Place(s, [i] + p)
    ensures AllowedIn(x, s, [i] + p) <==> AllowedIn(Within(x, s, i), Parts(s)[i], p)
  {
    PlaceDown(s, i, p);
    if s.Switch? {
      assert Parts(s)[..i] == [];
    } else {
      CasesBeforePart(x, s, i);
    }
  }

  /** A case value of s has a place in s, with no switch around it. */
  lemma {:induction false} CasePlace(s: Stmt) returns (p: Path)
    requires CaseValues(s) != []
    ensures Place(s, p) && At(s, p).Case? && !Inside(IsSwitch, s, p)
    decreases s
  {
    if s.Case? {
      p := [];
    } else {
      var i := if CaseValues(Parts(s)[0]) != [] then 0 else 1;
      assert i < |Parts(s)| && CaseValues(Parts(s)[i]) != [];
      var q := CasePlace(Parts(s)[i]);
      PlaceDown(s, i, q);
      p := [i] + q;
    }
  }

  predicate AllDistinct(x: Around, s: Stmt) {
    x.sw.InSwitch? ==> Distinct(x.sw.values + CaseValues(s))
  }

  lemma DistinctStart(a: seq<int>, b: seq<int>)
    requires Distinct(a + b)
    ensures Distinct(a)
  {
    assert forall i :: 0 <= i < |a| ==> (a + b)[i] == a[i];
  }

  /** Nothing in front of part i counts outside of a switch. */
  predicate Counted(x: Around, s: Stmt, i: nat)
    requires i < |Parts(s)|
  {
    s.Switch? || x.sw.InSwitch? || ValuesBefore(s, i) == []
  }

  lemma AllDown(x: Around, s: Stmt, i: nat)
    requires i < |Parts(s)| && Counted(x, s, i) && AllAllowed(x, s)
    ensures AllAllowed(Within(x, s, i), Parts(s)[i])
  {
    hide AllowedIn, Within, Parts, ValuesBefore, At;
    forall p | Place(Parts(s)[i], p) ensures AllowedIn(Within(x, s, i), Parts(s)[i], p) {
      AllowedDown(x, s, i, p);
    }
  }

  lemma AllUp(x: Around, s: Stmt)
    requires AllowedIn(x, s, [])
    requires forall i :: 0 <= i < |Parts(s)| ==> Counted(x, s, i) && AllAllowed(Within(x, s, i), Parts(s)[i])
    ensures AllAllowed(x, s)
  {
    hide AllowedIn, Within, Parts, ValuesBefore, At;
    forall p | Place(s, p) ensures AllowedIn(x, s, p) {
      if p != [] {
        assert p == [p[0]] + p[1..];
        AllowedDown(x, s, p[0], p[1..]);
      }
    }
  }

  /** A case label outside of every switch is not allowed anywhere. */
  lemma StrayCase(x: Around, s: Stmt)
    requires x.sw.NoSwitch? && CaseValues(s) != []
    ensures !AllAllowed(x, s)
  {
    var p := CasePlace(s);
    assert !AllowedIn(x, s, p);
  }

  lemma StrayBefore(x: Around, s: Stmt, i: nat)
    requires i < |Parts(s)| && !Counted(x, s, i)
    ensures !AllAllowed(x, s)
  {
    StrayCase(x, s);
  }

  /** Case values of s: those in front of the last part, and that one's. */
  lemma ValuesParts(s: Stmt)
    ensures |Parts(s)| == 0 || s.Switch? ==> CaseValues(s) == []
    ensures |Parts(s)| == 1 && !s.Switch? ==> CaseValues(s) == ValuesBefore(s, 0) + CaseValues(Parts(s)[0])
    ensures |Parts(s)| == 2 && !s.Switch? ==> CaseValues(s) == ValuesBefore(s, 1) + CaseValues(Parts(s)[1])
    ensures |Parts(s)| == 2 ==> ValuesBefore(s, 0) == [] && ValuesBefore(s, 1) == CaseValues(Parts(s)[0])
    ensures |Parts(s)| <= 2
  {
    if |Parts(s)| == 1 && !s.Switch? && !s.Case? {
      assert CaseValues(s) == CaseValues(Parts(s)[0]);
    }
  }

  lemma DistinctSplit(base: seq<int>, a: seq<int>, b: seq<int>)
    ensures base + (a + b) == base + a + b
    ensures Distinct(base + (a + b)) ==> Distinct(base + a)
  {
    assert base + (a + b) == base + a + b;
    if Distinct(base + a + b) {
      DistinctStart(base + a, b);
    }
  }

  /** The values of part i and all in front of it are distinct if those of s are. */
  lemma DistinctDown(x: Around, s: Stmt, i: nat)
    requires i < |Parts(s)| && AllDistinct(x, s) && AllowedIn(x, s, [])
    ensures AllDistinct(Within(x, s, i), Parts(s)[i])
    ensures Within(x, s, i).sw.InSwitch? ==> Distinct(Within(x, s, i).sw.values)
  {
    hide Distinct;
    var part := Parts(s)[i];
    if s.Switch? {
      assert [] + CaseValues(part) == CaseValues(part);
      NoneDistinct();
    } else if x.sw.InSwitch? {
      hide CaseValues, Parts, ValuesBefore;
      ValuesParts(s);
      var base, before := x.sw.values, ValuesBefore(s, i);
      assert base + [] == base;
      if i + 1 == |Parts(s)| {
        DistinctSplit(base, before, CaseValues(part));
      } else {
        DistinctSplit(base, CaseValues(part), CaseValues(Parts(s)[1]));
        DistinctSplit(base, [], CaseValues(part));
        assert [] + CaseValues(part) == CaseValues(part);
      }
    }
  }

  lemma NoneDistinct()
    ensures Distinct([])
  {
  }

  /** Distinct values in force for part i, given what holds of the parts before it. */
  lemma StartDistinct(x: Around, s: Stmt, i: nat)
    requires i < |Parts(s)| && LegalIn(x, s) && (x.sw.InSwitch? ==> Distinct(x.sw.values))
    requires i == 1 ==> AllDistinct(Within(x, s, 0), Parts(s)[0])
    ensures Within(x, s, i).sw.InSwitch? ==> Distinct(Within(x, s, i).sw.values)
  {
    hide CaseValues;
    WithinOne(x, s);
  }

  lemma EndDistinct(x: Around, s: Stmt)
    requires x.sw.InSwitch? ==> Distinct(x.sw.values)
    requires forall i :: 0 <= i < |Parts(s)| ==> AllDistinct(Within(x, s, i), Parts(s)[i])
    ensures AllDistinct(x, s)
    ensures s.Switch? ==> Distinct(CaseValues(s.body))
  {
    hide Distinct;
    ValuesParts(s);
    if s.Switch? {
      assert AllDistinct(Within(x, s, 0), s.body);
      assert [] + CaseValues(s.body) == CaseValues(s.body);
    }
    if x.sw.InSwitch? {
      var base := x.sw.values;
      if |Parts(s)| == 0 || s.Switch? {
        assert base + [] == base;
      } else {
        var n := |Parts(s)| - 1;
        assert AllDistinct(Within(x, s, n), Parts(s)[n]);
        hide CaseValues, Parts, ValuesBefore;
        DistinctSplit(base, ValuesBefore(s, n), CaseValues(Parts(s)[n]));
      }
    }
  }

  lemma {:induction false} LegalThenAllowed(x: Around, s: Stmt)
    requires LegalIn(x, s) && (x.sw.InSwitch? ==> Distinct(x.sw.values))
    ensures AllAllowed(x, s) && AllDistinct(x, s)
    decreases s
  {
    hide AllAllowed, AllDistinct, LegalIn, Within, Distinct, CaseValues, CasesBefore;
    LegalParts(x, s);
    var n := |Parts(s)|;
    var i := 0;
    while i < n
      invariant i <= n <= 2
      invariant forall j :: 0 <= j < i ==> AllAllowed(Within(x, s, j), Parts(s)[j]) && AllDistinct(Within(x, s, j), Parts(s)[j])
    {
      StartDistinct(x, s, i);
      LegalThenAllowed(Within(x, s, i), Parts(s)[i]);
      i := i + 1;
    }
    forall i | 0 <= i < n ensures Counted(x, s, i) {
      LegalCounted(x, s, i);
    }
    EndDistinct(x, s);
    AllowedHere(x, s);
    AllUp(x, s);
  }

  lemma LegalCounted(x: Around, s: Stmt, i: nat)
    requires i < |Parts(s)| && LegalIn(x, s)
    requires AllAllowed(Within(x, s, 0), Parts(s)[0])
    ensures Counted(x, s, i)
  {
    hide CaseValues, AllAllowed;
    if !Counted(x, s, i) && i == 1 {
      WithinOne(x, s);
      StrayCase(Within(x, s, 0), Parts(s)[0]);
    }
  }

  lemma AllowedHere(x: Around, s: Stmt)
    requires s.Break? ==> x.brk
    requires s.Continue? ==> x.cnt
    requires s.Case? || s.Default? ==> x.sw.InSwitch?
    requires s.Case? ==> Used(x.sw) < 255
    requires s.Switch? ==> Distinct(CaseValues(s.body))
    ensures AllowedIn(x, s, [])
  {
  }

  lemma {:induction false} AllowedThenLegal(x: Around, s: Stmt)
    requires AllAllowed(x, s) && AllDistinct(x, s)
    ensures LegalIn(x, s)
    decreases s
  {
    hide AllDistinct, LegalIn, Within, Distinct, CaseValues, CasesBefore, AllowedIn;
    assert Place(s, []);
    assert AllowedIn(x, s, []);
    forall i | 0 <= i < |Parts(s)| ensures LegalIn(Within(x, s, i), Parts(s)[i]) {
      if !Counted(x, s, i) {
        StrayBefore(x, s, i);
      }
      AllDown(x, s, i);
      DistinctDown(x, s, i);
      AllowedThenLegal(Within(x, s, i), Parts(s)[i]);
    }
    OwnRule(x, s);
    LegalParts(x, s);
  }

  lemma OwnRule(x: Around, s: Stmt)
    requires AllowedIn(x, s, []) && AllDistinct(x, s)
    ensures (s.Break? ==> x.brk) && (s.Continue? ==> x.cnt) && (s.Case? || s.Default? ==> x.sw.InSwitch?)
    ensures s.Case? ==> Used(x.sw) < 255 && Short(s.v) !in x.sw.values
  {
    if s.Case? {
      var all := x.sw.values + CaseValues(s);
      assert all[|x.sw.values|] == Short(s.v);
      assert forall i :: 0 <= i < |x.sw.values| ==> all[i] == x.sw.values[i];
    }
  }

  /** A function body is accepted if and only if every break is in a loop or a switch,
      every continue in a loop, every case and default in a switch; no switch repeats
      a case value; and fewer than 255 case labels stand in front of each one in the
      switches around it. */
  lemma LegalExact(s: Stmt)
    ensures Legal(s, false, false, NoSwitch) <==> Acceptable(s)
  {
    hide Legal, Allowed, AllowedIn, At;
    var x := Around(false, false, NoSwitch);
    if LegalIn(x, s) {
      LegalThenAllowed(x, s);
    }
    forall p | Place(s, p) ensures Allowed(s, p) <==> AllowedIn(x, s, p) {
      AllowedAlone(s, p);
    }
    if Acceptable(s) {
      AllowedThenLegal(x, s);
    }
  }

  /** The same of a statement with something around it. */
  lemma LegalInside(x: Around, s: Stmt)
    requires x.sw.InSwitch? ==> Distinct(x.sw.values)
    ensures Legal(s, x.brk, x.cnt, x.sw)
       <==> AllAllowed(x, s) && (x.sw.InSwitch? ==> Distinct(x.sw.values + CaseValues(s)))
  {
    hide Legal, AllAllowed, Distinct;
    if LegalIn(x, s) {
      LegalThenAllowed(x, s);
    }
    if AllAllowed(x, s) && AllDistinct(x, s) {
      AllowedThenLegal(x, s);
    }
  }

  lemma AllowedAlone(s: Stmt, p: Path)
    requires Place(s, p)
    ensures Allowed(s, p) <==> AllowedIn(Around(false, false, NoSwitch), s, p)
  {
  }
}
