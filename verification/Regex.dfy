/** re_comp and re_exec: compiling into the buffer and running what is there. */
module Regex {
  import opened Options
  import opened Pattern
  import opened RegexCode
  import opened RegexCompile

  // ----- the machine -----

  /** Every class body fits a count kept in a char, and there are no back-references. */
  predicate Plain(items: seq<Item>) {
    forall k :: 0 <= k < |items| ==> PlainItem(items[k])
  }

  predicate PlainItem(item: Item) {
    match item
    case One(a) => PlainAtom(a)
    case Star(a) => PlainAtom(a)
    case Open(k) => k < NBRA
    case Close(k) => k < NBRA
    case Back(_, _) => false
  }

  predicate PlainAtom(a: Atom) {
    match a
    case Char(c) => c != 0
    case Any => true
    case Class(elems, _) => elems != [] && Chained(elems) && |Bytes(elems)| <= 126
  }

  /** The low end of a range is the member before it. */
  predicate Chained(elems: seq<Elem>) {
    forall k :: 0 <= k < |elems| && elems[k].Upto? ==> k > 0 && LastOf(elems[k - 1]) == elems[k].lo
  }

  lemma {:induction false} InAbove(lo: Byte, hi: Byte, c: Byte)
    ensures c in Above(lo, hi) <==> lo < c <= hi
    decreases hi - lo
  {
    if lo < hi {
      InAbove(lo + 1, hi, c);
    }
  }

  lemma InClassLast(elems: seq<Elem>, c: Byte)
    requires elems != []
    ensures InClass(elems, c) <==> InClass(elems[..|elems| - 1], c) || InElem(elems[|elems| - 1], c)
  {
    hide InElem;
    var most := elems[..|elems| - 1];
    if InClass(most, c) {
      var k :| 0 <= k < |most| && InElem(most[k], c);
      assert InElem(elems[k], c);
    }
  }

  /** The bytes of a class are exactly its members. */
  lemma {:induction false} InBytes(elems: seq<Elem>, c: Byte)
    requires Chained(elems)
    ensures c in Bytes(elems) <==> InClass(elems, c)
    ensures elems != [] ==> LastOf(elems[|elems| - 1]) in Bytes(elems)
  {
    if elems != [] {
      var most, e := elems[..|elems| - 1], elems[|elems| - 1];
      InBytes(most, c);
      assert c in Bytes(elems) <==> c in Bytes(most) || c in ElemBytes(e);
      InClassLast(elems, c);
      if e.Upto? {
        InAbove(e.lo, e.hi, c);
        if c == e.lo {
          assert LastOf(most[|most| - 1]) == c;
        }
      }
    }
  }

  /** cclass: scans the counted body for c. */
  method CClass(body: Text, c: Byte, af: bool) returns (r: bool)
    requires |body| > 0 && body[0] > 0 && |body| >= body[0] as int
    ensures r == (c != 0 && ((c in body[1..body[0]]) == af))
  {
    if c == 0 {
      return false;
    }
    var n: int := body[0] as int - 1;
    var i: nat := 1;
    while n != 0
      invariant n == body[0] as int - i && 1 <= i <= body[0] as int
      invariant c !in body[1..i]
      decreases n
    {
      if body[i] == c {
        assert body[i] in body[1..body[0]];
        return af;
      }
      i := i + 1;
      n := n - 1;
    }
    return !af;
  }

  /** The subject, with the NUL that ends it. */
  function At(s: Text, i: nat): Byte {
    if i < |s| then s[i] else 0
  }

  ghost predicate NoNul(s: Text) {
    forall k :: 0 <= k < |s| ==> s[k] != 0
  }

  /** The items, and the dollar if any, match from i on. */
  ghost predicate Accepts(items: seq<Item>, dollar: bool, s: Text, i: nat)
    requires i <= |s|
  {
    exists j :: i <= j <= |s| && (dollar ==> j == |s|) && In(items, s[i..j])
  }

  /** The code of the items stands at ep. */
  ghost predicate CodeAt(code: Text, ep: nat, items: seq<Item>, dollar: bool) {
    var c := Code(items) + EndCode(dollar);
    ep + |c| <= |code| && code[ep..ep + |c|] == c
  }

  lemma CodeFirst(items: seq<Item>, dollar: bool)
    requires items != []
    ensures Code(items) + EndCode(dollar) == ItemCode(items[0]) + (Code(items[1..]) + EndCode(dollar))
  {
    hide ItemCode, EndCode;
  }

  lemma SliceParts(code: Text, ep: nat, a: Text, b: Text)
    requires ep + |a| + |b| <= |code| && code[ep..ep + |a| + |b|] == a + b
    ensures code[ep..ep + |a|] == a && code[ep + |a|..ep + |a| + |b|] == b
  {
    var c := code[ep..ep + |a| + |b|];
    assert code[ep..ep + |a|] == c[..|a|] && code[ep + |a|..ep + |a| + |b|] == c[|a|..];
  }

  lemma CodeNext(code: Text, ep: nat, items: seq<Item>, dollar: bool)
    requires CodeAt(code, ep, items, dollar) && items != []
    ensures CodeAt(code, ep + |ItemCode(items[0])|, items[1..], dollar)
    ensures ep + |ItemCode(items[0])| <= |code| && code[ep..ep + |ItemCode(items[0])|] == ItemCode(items[0])
  {
    CodeFirst(items, dollar);
    hide ItemCode, EndCode, Code;
    SliceParts(code, ep, ItemCode(items[0]), Code(items[1..]) + EndCode(dollar));
  }

  lemma CodeEnd(code: Text, ep: nat, dollar: bool)
    requires CodeAt(code, ep, [], dollar)
    ensures ep + |EndCode(dollar)| <= |code| && code[ep] == EndCode(dollar)[0]
    ensures dollar ==> CodeAt(code, ep + 1, [], false)
  {
    var c := EndCode(dollar);
    assert Code([]) + c == c;
    assert code[ep..ep + |c|][0] == code[ep];
    if dollar {
      assert code[ep + 1..ep + 2] == code[ep..ep + 2][1..];
      assert Code([]) + EndCode(false) == [CEOF];
    }
  }

  // ----- one step of matching -----

  lemma AcceptsNone(dollar: bool, s: Text, i: nat)
    requires i <= |s|
    ensures Accepts([], dollar, s, i) <==> (dollar ==> i == |s|)
  {
    if dollar ==> i == |s| {
      assert s[i..i] == [];
      assert In([], s[i..i]);
    }
    if Accepts([], dollar, s, i) {
      var j :| i <= j <= |s| && (dollar ==> j == |s|) && In([], s[i..j]);
      assert s[i..j] == [];
    }
  }

  lemma AcceptsOne(items: seq<Item>, dollar: bool, s: Text, i: nat)
    requires i <= |s| && items != [] && items[0].One?
    ensures Accepts(items, dollar, s, i) <==> i < |s| && Matches(items[0].a, s[i]) && Accepts(items[1..], dollar, s, i + 1)
  {
    if Accepts(items, dollar, s, i) {
      var j :| i <= j <= |s| && (dollar ==> j == |s|) && In(items, s[i..j]);
      assert s[i..j][1..] == s[i + 1..j];
      assert Accepts(items[1..], dollar, s, i + 1);
    }
    if i < |s| && Matches(items[0].a, s[i]) && Accepts(items[1..], dollar, s, i + 1) {
      var j :| i + 1 <= j <= |s| && (dollar ==> j == |s|) && In(items[1..], s[i + 1..j]);
      assert s[i..j][1..] == s[i + 1..j];
      assert In(items, s[i..j]);
    }
  }

  lemma AcceptsBracket(items: seq<Item>, dollar: bool, s: Text, i: nat)
    requires i <= |s| && items != [] && (items[0].Open? || items[0].Close?)
    ensures Accepts(items, dollar, s, i) <==> Accepts(items[1..], dollar, s, i)
  {
  }

  /** A starred atom gives the rest a start anywhere in a run of its characters. */
  lemma AcceptsStar(items: seq<Item>, dollar: bool, s: Text, i: nat)
    requires i <= |s| && items != [] && items[0].Star?
    ensures Accepts(items, dollar, s, i) <==>
            exists k :: i <= k <= |s| && AllMatch(items[0].a, s[i..k]) && Accepts(items[1..], dollar, s, k)
  {
    var a := items[0].a;
    if Accepts(items, dollar, s, i) {
      var j :| i <= j <= |s| && (dollar ==> j == |s|) && In(items, s[i..j]);
      var u := s[i..j];
      var k :| 0 <= k <= |u| && AllMatch(a, u[..k]) && In(items[1..], u[k..]);
      assert u[..k] == s[i..i + k] && u[k..] == s[i + k..j];
      assert Accepts(items[1..], dollar, s, i + k);
    }
    if exists k :: i <= k <= |s| && AllMatch(a, s[i..k]) && Accepts(items[1..], dollar, s, k) {
      var k :| i <= k <= |s| && AllMatch(a, s[i..k]) && Accepts(items[1..], dollar, s, k);
      var j :| k <= j <= |s| && (dollar ==> j == |s|) && In(items[1..], s[k..j]);
      var u := s[i..j];
      assert u[..k - i] == s[i..k] && u[k - i..] == s[k..j];
      assert In(items, u);
    }
  }

  lemma AcceptsStarRun(items: seq<Item>, dollar: bool, s: Text, i: nat, stop: nat)
    requires i <= stop <= |s| && items != [] && items[0].Star?
    requires AllMatch(items[0].a, s[i..stop]) && (stop == |s| || !Matches(items[0].a, s[stop]))
    ensures Accepts(items, dollar, s, i) <==> exists k :: i <= k <= stop && Accepts(items[1..], dollar, s, k)
  {
    AcceptsStar(items, dollar, s, i);
    forall k | i <= k <= |s| ensures AllMatch(items[0].a, s[i..k]) <==> k <= stop {
      if k <= stop {
        assert forall m :: 0 <= m < k - i ==> s[i..k][m] == s[i..stop][m];
      } else {
        assert s[i..k][stop - i] == s[stop];
      }
    }
  }

  /** What the byte at lp does in a class: its code bytes decide as its members do. */
  lemma ClassBytes(code: Text, ep: nat, elems: seq<Elem>, neg: bool, f: Byte)
    requires 0 <= f <= 1 && PlainAtom(Class(elems, neg))
    requires CodeIs(code, ep, AtomCode(Class(elems, neg), f))
    ensures var n := |Bytes(elems)| + 1;
            && n > 1 && |AtomCode(Class(elems, neg), f)| == n + 1
            && ep + 1 + n <= |code| && code[ep] == (if neg then NCCL else CCL) + f && code[ep + 1] as int == n
            && code[ep + 1..][1..n] == Bytes(elems)
  {
    hide Bytes, Chained;
    var n := |Bytes(elems)| + 1;
    InBytes(elems, 0);
    var c := AtomCode(Class(elems, neg), f);
    assert c[1] == Wrap(n) && c[0] == (if neg then NCCL else CCL) + f;
    CodeBytes(code, ep, c, 0);
    CodeBytes(code, ep, c, 1);
    assert code[ep + 1..][1..n] == code[ep..ep + |c|][2..];
  }

  /** The bytes c stand at ep. */
  ghost predicate CodeIs(code: Text, ep: nat, c: Text) {
    ep + |c| <= |code| && code[ep..ep + |c|] == c
  }

  lemma CodeBytes(code: Text, ep: nat, c: Text, k: nat)
    requires CodeIs(code, ep, c) && k < |c|
    ensures ep + |c| <= |code| && code[ep + k] == c[k]
  {
    assert code[ep..ep + |c|][k] == code[ep + k];
  }

  class Matcher {
    const expbuf: array<Byte>
    const braslist: array<int>
    const braelist: array<int>
    var circf: bool

    /** Two places more than in the source take what is written there beyond its array. */
    ghost predicate Valid() {
      && expbuf.Length == ESIZE + 2 && braslist.Length == NBRA && braelist.Length == NBRA
      && expbuf as object != braslist && expbuf as object != braelist
    }

    constructor ()
      ensures Valid() && fresh(expbuf) && fresh(braslist) && fresh(braelist) && expbuf[0] == 0
    {
      expbuf := new Byte[ESIZE + 2](_ => 0);
      braslist := new int[NBRA](_ => 0);
      braelist := new int[NBRA](_ => 0);
      circf := false;
    }

    /** Position after the run of characters of a at lp. */
    ghost predicate RunEnds(a: Atom, s: Text, lp: nat, stop: nat) {
      && lp <= stop <= |s| && AllMatch(a, s[lp..stop])
      && (stop == |s| || !Matches(a, s[stop]))
    }

    /** The scan of a starred atom stops one past the first character it refuses. */
    method ScanDot(s: Text, lp: nat) returns (past: nat)
      requires NoNul(s) && lp <= |s|
      ensures lp < past <= |s| + 1 && RunEnds(Any, s, lp, past - 1)
    {
      past := lp;
      while At(s, past) != 0
        invariant lp <= past <= |s|
        decreases |s| - past
      {
        past := past + 1;
      }
      past := past + 1;
    }

    method ScanChar(s: Text, c: Byte, lp: nat) returns (past: nat)
      requires lp <= |s| && c != 0
      ensures lp < past <= |s| + 1 && RunEnds(Char(c), s, lp, past - 1)
    {
      past := lp;
      while At(s, past) == c
        invariant lp <= past <= |s| && AllMatch(Char(c), s[lp..past])
        decreases |s| - past
      {
        assert s[lp..past + 1] == s[lp..past] + [s[past]];
        past := past + 1;
      }
      past := past + 1;
    }

    method ScanClass(s: Text, body: Text, af: bool, lp: nat, ghost a: Atom) returns (past: nat)
      requires NoNul(s) && lp <= |s| && PlainAtom(a) && a.Class? && af == !a.negated
      requires |body| > 0 && body[0] > 0 && |body| >= body[0] as int && body[1..body[0]] == Bytes(a.elems)
      ensures lp < past <= |s| + 1 && RunEnds(a, s, lp, past - 1)
    {
      hide Bytes, InClass;
      past := lp;
      var more := CClass(body, At(s, past), af);
      InBytes(a.elems, At(s, past));
      while more
        invariant lp <= past <= |s| && AllMatch(a, s[lp..past])
        invariant more <==> past < |s| && Matches(a, s[past])
        decreases |s| - past
      {
        assert s[lp..past + 1] == s[lp..past] + [s[past]];
        past := past + 1;
        more := CClass(body, At(s, past), af);
        InBytes(a.elems, At(s, past));
      }
      past := past + 1;
    }

    /** The byte at k: matching reads nothing beyond the array of the source. */
    function Op(k: nat): Byte
      requires Valid() && k < ESIZE
      reads expbuf
    {
      expbuf[k]
    }

    /** Tries the rest of the code from the longest run down to none. */
    method TryRun(s: Text, curlp: nat, past: nat, ep: nat, ghost rest: seq<Item>, ghost dollar: bool) returns (rv: int)
      requires Valid() && NoNul(s) && curlp < past <= |s| + 1 && Plain(rest) && CodeAt(expbuf[..ESIZE], ep, rest, dollar)
      modifies braslist, braelist
      ensures rv == if exists k :: curlp <= k < past && Accepts(rest, dollar, s, k) then 1 else 0
      decreases |rest|, 1
    {
      hide CodeAt, Accepts, Plain;
      var lp := past;
      while true
        invariant curlp < lp <= past
        invariant forall k :: lp <= k < past ==> !Accepts(rest, dollar, s, k)
        decreases lp
      {
        lp := lp - 1;
        Decode(expbuf[..ESIZE], ep, rest, dollar);
        rv := Advance(s, lp, ep, rest, dollar);
        if rv != 0 {
          return;
        }
        if lp <= curlp {
          break;
        }
      }
      rv := 0;
    }

    /** Runs the code from ep on the subject from lp: 1 exactly when it matches. */
    method Advance(s: Text, lp0: nat, ep0: nat, ghost items: seq<Item>, ghost dollar: bool) returns (rv: int)
      requires Valid() && NoNul(s) && lp0 <= |s| && ep0 < ESIZE
      requires Op(ep0) != 0 ==> Plain(items) && CodeAt(expbuf[..ESIZE], ep0, items, dollar)
      modifies braslist, braelist
      ensures rv == if Op(ep0) == 0 then -1 else if Accepts(items, dollar, s, lp0) then 1 else 0
      decreases |items|, 0
    {
      hide CodeAt, Accepts, Plain, AtomCode, PlainAtom, Matches, RunEnds, In;
      var lp: nat, ep: nat := lp0, ep0;
      ghost var rest, dol := items, dollar;
      if Op(ep) == 0 {        // not an opcode: nothing was compiled
        return -1;
      }
      while true
        invariant lp <= |s| && Plain(rest) && CodeAt(expbuf[..ESIZE], ep, rest, dol) && |rest| <= |items|
        invariant Accepts(items, dollar, s, lp0) <==> Accepts(rest, dol, s, lp)
        decreases |rest|, dol
      {
        Decode(expbuf[..ESIZE], ep, rest, dol);
        var op := Op(ep);
        if op == CEOF {
          AcceptsNone(dol, s, lp);
          return 1;
        } else if op == CDOL {
          AcceptsNone(dol, s, lp);
          if At(s, lp) != 0 {
            AtEnd(s, lp);
            return 0;
          }
          AtEnd(s, lp);
          AcceptsNone(false, s, lp);
          CodeEnd(expbuf[..ESIZE], ep, dol);
          ep, dol := ep + 1, false;
        } else if op == CBRA || op == CKET {
          AcceptsBracket(rest, dol, s, lp);
          if op == CBRA {
            braslist[Op(ep + 1)] := lp;
          } else {
            braelist[Op(ep + 1)] := lp;
          }
          ep, rest := ep + 2, rest[1..];
        } else if op == CCHR || op == CDOT || op == CCL || op == NCCL {
          var ok, next := TakeOne(s, lp, ep, rest[0].a);
          AcceptsOne(rest, dol, s, lp);
          if !ok {
            return 0;
          }
          lp, ep, rest := lp + 1, next, rest[1..];
        } else {
          var past, next := TakeRun(s, lp, ep, rest[0].a);
          rv := TryRun(s, lp, past, next, rest[1..], dol);
          StarStep(rest, dol, s, lp, past - 1);
          return;
        }
      }
    }

    /** An unstarred atom: does it take the character at lp, and where its code ends. */
    method TakeOne(s: Text, lp: nat, ep: nat, ghost a: Atom) returns (ok: bool, next: nat)
      requires Valid() && NoNul(s) && lp <= |s| && PlainAtom(a) && CodeIs(expbuf[..ESIZE], ep, AtomCode(a, 0))
      ensures ok <==> lp < |s| && Matches(a, s[lp])
      ensures next == ep + |AtomCode(a, 0)|
    {
      hide Bytes, InClass;
      ghost var code := AtomCode(a, 0);
      CodeBytes(expbuf[..ESIZE], ep, code, 0);
      var op := Op(ep);
      next := ep + 1;
      if op == CCHR {
        CodeBytes(expbuf[..ESIZE], ep, code, 1);
        ok := Op(next) == At(s, lp);
        next := next + 1;
      } else if op == CDOT {
        ok := At(s, lp) != 0;
      } else {
        ClassBytes(expbuf[..ESIZE], ep, a.elems, a.negated, 0);
        InBytes(a.elems, At(s, lp));
        ok := CClass(expbuf[next..ESIZE], At(s, lp), op == CCL);
        next := next + Op(next) as int;
      }
    }

    /** A starred atom: one past the run it takes from lp, and where its code ends. */
    method TakeRun(s: Text, lp: nat, ep: nat, ghost a: Atom) returns (past: nat, next: nat)
      requires Valid() && NoNul(s) && lp <= |s| && PlainAtom(a) && CodeIs(expbuf[..ESIZE], ep, AtomCode(a, CSTAR))
      ensures lp < past <= |s| + 1 && RunEnds(a, s, lp, past - 1)
      ensures next == ep + |AtomCode(a, CSTAR)|
    {
      hide Bytes, InClass, RunEnds;
      ghost var code := AtomCode(a, CSTAR);
      CodeBytes(expbuf[..ESIZE], ep, code, 0);
      var op := Op(ep);
      next := ep + 1;
      if op == CDOT + CSTAR {
        past := ScanDot(s, lp);
      } else if op == CCHR + CSTAR {
        CodeBytes(expbuf[..ESIZE], ep, code, 1);
        past := ScanChar(s, Op(next), lp);
        next := next + 1;
      } else {
        ClassBytes(expbuf[..ESIZE], ep, a.elems, a.negated, CSTAR);
        assert expbuf[next..ESIZE] == expbuf[..ESIZE][next..];
        past := ScanClass(s, expbuf[next..ESIZE], op == CCL + CSTAR, lp, a);
        next := next + Op(next) as int;
      }
    }

    lemma StarStep(items: seq<Item>, dollar: bool, s: Text, lp: nat, stop: nat)
      requires lp <= stop <= |s| && items != [] && items[0].Star? && RunEnds(items[0].a, s, lp, stop)
      ensures Accepts(items, dollar, s, lp) <==> exists k :: lp <= k < stop + 1 && Accepts(items[1..], dollar, s, k)
    {
      AcceptsStarRun(items, dollar, s, lp, stop);
    }

    /** The buffer holds the code of re, compiled from a text that was anchored or not. */
    ghost predicate Holds(re: RegExp)
      reads expbuf
    {
      Valid() && CodeAt(expbuf[..ESIZE], 0, re.items, re.dollar)
    }

    /** re_exec: 1 exactly when the compiled expression is found, -1 when there is none. */
    method ReExec(s: Text, ghost re: RegExp) returns (rv: int)
      requires Valid() && NoNul(s)
      requires Op(0) != 0 ==> Holds(re) && Plain(re.items)
      modifies braslist, braelist
      ensures rv == if Op(0) == 0 then -1 else if Found(re, circf, s) then 1 else 0
    {
      hide Accepts, Found, CodeAt, Plain, In;
      for c := 0 to NBRA {
        braslist[c], braelist[c] := 0, 0;
      }
      if circf {
        rv := Advance(s, 0, 0, re.items, re.dollar);
        FoundAnchored(re, s);
        return;
      }
      if Op(0) == CCHR {
        FirstChar(expbuf[..ESIZE], re);
        var c := Op(1);
        var p1: nat := 0;
        while true
          invariant p1 <= |s|
          invariant forall i :: 0 <= i < p1 ==> !Accepts(re.items, re.dollar, s, i)
          decreases |s| - p1
        {
          if At(s, p1) == c {
            rv := Advance(s, p1, 0, re.items, re.dollar);
            if rv != 0 {
              FoundFrom(re, s);
              return;
            }
          } else {
            AcceptsOne(re.items, re.dollar, s, p1);
          }
          AtEnd(s, p1);
          if At(s, p1) == 0 {
            break;
          }
          p1 := p1 + 1;
        }
        FoundFrom(re, s);
        return 0;
      }
      var p1: nat := 0;
      while true
        invariant p1 <= |s|
        invariant forall i :: 0 <= i < p1 ==> !Accepts(re.items, re.dollar, s, i)
        decreases |s| - p1
      {
        rv := Advance(s, p1, 0, re.items, re.dollar);
        if rv != 0 {
          FoundFrom(re, s);
          return;
        }
        AtEnd(s, p1);
        if At(s, p1) == 0 {
          break;
        }
        p1 := p1 + 1;
      }
      FoundFrom(re, s);
      rv := 0;
    }


    /** The class body so far: its bytes, and the last of them (the count byte, 0, before any). */
    ghost predicate BodyAt(start: nat, ep: nat, elems: seq<Elem>)
      reads expbuf
    {
      && Valid() && 2 <= start <= ep <= ESIZE + 1 && (elems != [] ==> ep < ESIZE) && expbuf[start..ep] == Bytes(elems)
      && expbuf[ep - 1] == (if elems == [] then 0 else LastOf(elems[|elems| - 1]))
      && (elems != [] ==> expbuf[ep - 1] != 0)
    }

    lemma BodyStart(ep: nat)
      requires Valid() && 2 <= ep <= ESIZE + 1 && expbuf[ep - 1] == 0
      ensures BodyAt(ep, ep, [])
    {
      assert expbuf[ep..ep] == [];
    }

    lemma BodyFacts(start: nat, ep: nat, elems: seq<Elem>)
      requires BodyAt(start, ep, elems)
      ensures Valid() && 2 <= start <= ep <= ESIZE + 1 && expbuf[start..ep] == Bytes(elems) && ep - start == |Bytes(elems)|
      ensures elems != [] ==> ep < ESIZE
      ensures expbuf[ep - 1] != 0 <==> elems != []
    {
    }

    method AddSingle(start: nat, ep0: nat, c: Byte, ghost elems: seq<Elem>) returns (full: bool, ep: nat)
      requires BodyAt(start, ep0, elems) && c != 0
      modifies expbuf
      ensures expbuf[..start - 2] == old(expbuf[..start - 2]) && expbuf[start - 2] == old(expbuf[start - 2])
      ensures ep == ep0 + 1 && (full <==> ep >= ESIZE)
      ensures expbuf[start..ep] == Bytes(elems + [Single(c)])
      ensures !full ==> BodyAt(start, ep, elems + [Single(c)])
    {
      hide Bytes;
      ghost var was := expbuf[start..ep0];
      expbuf[ep0] := c;
      ep := ep0 + 1;
      BytesNext(elems, Single(c));
      assert expbuf[start..ep] == was + [c];
      full := ep >= ESIZE;
    }

    method AddRange(start: nat, ep0: nat, c: Byte, ghost elems: seq<Elem>) returns (full: bool, ep: nat)
      requires BodyAt(start, ep0, elems) && elems != []
      modifies expbuf
      ensures expbuf[..start - 2] == old(expbuf[..start - 2]) && expbuf[start - 2] == old(expbuf[start - 2])
      ensures var e := Upto(LastOf(elems[|elems| - 1]), c);
              && (full <==> ep0 + |ElemBytes(e)| >= ESIZE)
              && (!full && c != 0 ==> ep == ep0 + |ElemBytes(e)| && BodyAt(start, ep, elems + [e]))
    {
      hide Bytes, Above;
      ghost var e := Upto(expbuf[ep0 - 1], c);
      ghost var was, before := expbuf[start..ep0], expbuf[..];
      full, ep := Spell(ep0, c);
      KeptBelow(expbuf[..], before, ep0, start);
      KeptBelow(expbuf[..], before, ep0, start - 2);
      if full {
        return;
      }
      ghost var spelt := expbuf[ep0..ep];
      expbuf[ep] := c;
      ep := ep + 1;
      full := ep >= ESIZE;
      BytesNext(elems, e);
      assert expbuf[start..ep] == was + (spelt + [c]);
    }

    /** The members of a class from position k on, up to the ] that ends them. */
    method ClassMembers(sp: Text, k: nat, start: nat) returns (err: Option<Error>, i: nat, ep: nat)
      requires NoNul(sp) && k <= |sp| && BodyAt(start, start, [])
      requires ParseClass(sp, k, [], start) != Err(Truncated)
      modifies expbuf
      ensures expbuf[..start - 2] == old(expbuf[..start - 2]) && expbuf[start - 2] == old(expbuf[start - 2])
      ensures var r := ParseClass(sp, k, [], start);
              if r.Err? then err == Some(r.error) else
                && err == None && i == r.value.next && start <= ep <= ESIZE && expbuf[start..ep] == Bytes(r.value.elems)
    {
      hide Bytes, ParseClass, ElemBytes, LastOf, BodyAt;
      BodyFacts(start, start, []);
      var c := At(sp, k);
      i, ep := k + 1, start;
      ghost var elems: seq<Elem> := [];
      var full;
      while true
        invariant 0 < i <= |sp| + 1 && c == At(sp, i - 1) && (c != ']' as int || elems == []) && BodyAt(start, ep, elems)
        invariant expbuf[..start - 2] == old(expbuf[..start - 2]) && expbuf[start - 2] == old(expbuf[start - 2])
        invariant ParseClass(sp, i - 1, elems, ep) == ParseClass(sp, k, [], start)
        decreases |sp| + 1 - i
      {
        ClassStep(sp, i - 1, elems, ep);
        BodyFacts(start, ep, elems);
        if c == 0 {
          return Some(MissingBracket), i, ep;
        }
        if c == '-' as int && expbuf[ep - 1] != 0 {
          c := At(sp, i);
          i := i + 1;
          if c == ']' as int {
            full, ep := AddSingle(start, ep, '-' as int, elems);
            return None, i, ep;
          }
          ghost var e := Upto(LastOf(elems[|elems| - 1]), c);
          full, ep := AddRange(start, ep, c, elems);
          elems := elems + [e];
        } else {
          full, ep := AddSingle(start, ep, c, elems);
          elems := elems + [Single(c)];
        }
        if full {
          return Some(TooLong), i, ep;
        }
        c := At(sp, i);
        i := i + 1;
        if c == ']' as int {
          ClassStep(sp, i - 1, elems, ep);
          BodyFacts(start, ep, elems);
          return None, i, ep;
        }
      }
    }

    /** The class after [ at ep0; i0 is the position after the [. */
    method CompileClass(sp: Text, i0: nat, ep0: nat) returns (err: Option<Error>, i: nat, ep: nat)
      requires Valid() && NoNul(sp) && i0 <= |sp| && ep0 < ESIZE
      requires ClassAt(sp, i0, ep0 + 2) != Err(Truncated)
      modifies expbuf
      ensures expbuf[..ep0] == old(expbuf[..ep0])
      ensures var r := ClassAt(sp, i0, ep0 + 2);
              if r.Err? then err == Some(r.error) else
                && err == None && i == r.value.next && ep0 + 2 <= ep <= ESIZE && expbuf[ep0 + 2..ep] == Bytes(r.value.elems)
                && expbuf[ep0] == (if Negated(sp, i0) then NCCL else CCL)
    {
      hide Bytes, ParseClass;
      expbuf[ep0] := CCL;
      expbuf[ep0 + 1] := 0;
      i := i0;
      if At(sp, i) == '^' as int {
        i := i + 1;
        expbuf[ep0] := NCCL;
      }
      BodyStart(ep0 + 2);
      err, i, ep := ClassMembers(sp, i, ep0 + 2);
    }

    /** comerr: nothing usable is left in the buffer. */
    method ComErr(e: Error) returns (reply: Reply)
      requires Valid()
      modifies expbuf
      ensures expbuf[0] == 0 && reply == Failed(e)
    {
      expbuf[0] := 0;
      reply := Failed(e);
    }

    method Put1(ep: nat, b: Byte)
      requires Valid() && ep <= ESIZE
      modifies expbuf
      ensures expbuf[..ep + 1] == old(expbuf[..ep]) + [b]
    {
      expbuf[ep] := b;
    }

    method Put2(ep: nat, b: Byte, c: Byte)
      requires Valid() && ep <= ESIZE
      modifies expbuf
      ensures expbuf[..ep + 2] == old(expbuf[..ep]) + [b, c]
    {
      expbuf[ep], expbuf[ep + 1] := b, c;
    }

    /** A star: a flag on the operator before it, or a character of its own. */
    method CompileStar(sp: Text, i: nat, ep0: nat, lastep: int, ghost num: nat, ghost stack: seq<nat>,
                       ghost prefix0: seq<Item>, ghost p0: Pending)
      returns (ep: nat, ghost prefix: seq<Item>, ghost p: Pending)
      requires Valid() && ep0 < ESIZE && i < |sp| && sp[i] == '*' as int
      requires State(sp, i, expbuf[..ep0], num, stack, prefix0, p0) && LastOp(expbuf[..ep0], lastep, prefix0, p0)
      modifies expbuf
      ensures ep <= ESIZE + 1 && State(sp, i + 1, expbuf[..ep], num, stack, prefix, p)
      ensures LastOp(expbuf[..ep], lastep, prefix, p)
    {
      hide Parse, State, Code, ItemCode;
      ghost var out := expbuf[..ep0];
      PendingHere(sp, i, out, num, stack, prefix0, p0, lastep);
      prefix, p := prefix0, p0;
      if lastep < 0 || expbuf[lastep] == CBRA || expbuf[lastep] == CKET {
        ParsePlain(sp, i, num, stack, ep0);
        CharCode('*' as int);
        AddItem(sp, i, out, num, stack, prefix, One(Char('*' as int)), i + 1, num, stack);
        Put2(ep0, CCHR, '*' as int);
        ep, prefix := ep0 + 2, prefix + [One(Char('*' as int))];
        assert lastep >= 0 ==> expbuf[..ep][lastep] == out[lastep];
      } else {
        StarFlag(sp, i, out, num, stack, prefix, p, lastep);
        expbuf[lastep] := if expbuf[lastep] % 2 == 0 then expbuf[lastep] + CSTAR else expbuf[lastep];
        ep, p := ep0, p.(seen := true);
        assert expbuf[..ep] == out[lastep := expbuf[lastep]];
      }
    }

    /** Any character but a star, a bracket or a backslash. */
    method CompilePlain(sp: Text, i: nat, ep0: nat, ghost num: nat, ghost stack: seq<nat>, ghost prefix: seq<Item>)
      returns (ep: nat, ghost p: Pending)
      requires Valid() && NoNul(sp) && ep0 < ESIZE && i < |sp| && sp[i] != '*' as int && sp[i] != '[' as int && sp[i] != '\\' as int
      requires State(sp, i, expbuf[..ep0], num, stack, prefix, Idle)
      modifies expbuf
      ensures ep <= ESIZE + 1 && State(sp, i + 1, expbuf[..ep], num, stack, prefix, p)
      ensures LastOp(expbuf[..ep], ep0, prefix, p)
    {
      hide Parse, State, Code, ItemCode, WithStars;
      ghost var out := expbuf[..ep0];
      var c := sp[i];
      StateLength(sp, i, out, num, stack, prefix);
      ParsePlain(sp, i, num, stack, ep0);
      CharCode(c);
      if c == '.' as int {
        p := After(One(Any), Star(Any), false);
        AddRepeatable(sp, i, out, num, stack, prefix, i + 1, p);
        Put1(ep0, CDOT);
        ep := ep0 + 1;
      } else if c == '$' as int && At(sp, i + 1) == 0 {
        p := Dollar;
        AddDollar(sp, i, out, num, stack, prefix);
        Put1(ep0, CDOL);
        ep := ep0 + 1;
      } else {
        p := After(One(Char(c)), Star(Char(c)), false);
        AddRepeatable(sp, i, out, num, stack, prefix, i + 1, p);
        Put2(ep0, CCHR, c);
        ep := ep0 + 2;
      }
    }

    /** A class: compiled behind its operator, whose count comes last. */
    method CompileBracket(sp: Text, i0: nat, ep0: nat, ghost num: nat, ghost stack: seq<nat>, ghost prefix: seq<Item>)
      returns (err: Option<Error>, i: nat, ep: nat, ghost p: Pending)
      requires Valid() && NoNul(sp) && ep0 < ESIZE && i0 < |sp| && sp[i0] == '[' as int && ParseText(sp) != Err(Truncated)
      requires State(sp, i0, expbuf[..ep0], num, stack, prefix, Idle)
      modifies expbuf
      ensures err.Some? ==> ParseText(sp) == Err(err.value)
      ensures err == None ==>
                && i0 < i <= |sp| && ep <= ESIZE + 1 && State(sp, i, expbuf[..ep], num, stack, prefix, p)
                && LastOp(expbuf[..ep], ep0, prefix, p)
    {
      hide Parse, State, Code, ItemCode, WithStars, ClassAt, Bytes;
      ghost var out := expbuf[..ep0];
      StateLength(sp, i0, out, num, stack, prefix);
      ParseBracket(sp, i0, num, stack, ep0);
      ghost var r := ClassAt(sp, i0 + 1, ep0 + 2);
      if r.Err? {
        ErrorNow(sp, i0, out, num, stack, prefix, r.error);
      }
      err, i, ep := CompileClass(sp, i0 + 1, ep0);
      p := Idle;
      if err == None {
        expbuf[ep0 + 1] := Wrap(ep - ep0 - 1);
        ghost var a := Class(r.value.elems, Negated(sp, i0 + 1));
        ClassCode(a);
        p := After(One(a), Star(a), false);
        AddRepeatable(sp, i0, out, num, stack, prefix, i, p);
        assert expbuf[..ep] == out + ([expbuf[ep0], expbuf[ep0 + 1]] + expbuf[ep0 + 2..ep]);
      }
    }

    /** After a backslash: a bracket, a back-reference, or a plain character. */
    method CompileEscape(sp: Text, i: nat, ep0: nat, num0: nat, bracket: array<nat>, bp0: nat, ghost prefix0: seq<Item>)
      returns (err: Option<Error>, ep: nat, num: nat, bp: nat, ghost prefix: seq<Item>, ghost p: Pending)
      requires Valid() && NoNul(sp) && ep0 < ESIZE && i < |sp| && sp[i] == '\\' as int && ParseText(sp) != Err(Truncated)
      requires bracket.Length == NBRA && bp0 <= num0 <= NBRA
      requires State(sp, i, expbuf[..ep0], num0, bracket[..bp0], prefix0, Idle)
      modifies expbuf, bracket
      ensures err.Some? ==> ParseText(sp) == Err(err.value)
      ensures err == None ==>
                && i + 2 <= |sp| && ep <= ESIZE + 1 && bp <= num <= NBRA
                && State(sp, i + 2, expbuf[..ep], num, bracket[..bp], prefix, p) && LastOp(expbuf[..ep], ep0, prefix, p)
    {
      hide Parse, State, Code, ItemCode, WithStars;
      ghost var out, stack := expbuf[..ep0], bracket[..bp0];
      StateLength(sp, i, out, num0, stack, prefix0);
      ParseEscape(sp, i, num0, stack, ep0);
      err, ep, num, bp, prefix, p := None, ep0 + 2, num0, bp0, prefix0, Idle;
      if i + 1 == |sp| {
        // the text is cut off: all that is left to happen is running out of room
        ErrorNow(sp, i, out, num0, stack, prefix0, if ep0 + 2 >= ESIZE then TooLong else Truncated);
        err := Some(TooLong);
        return;
      }
      var c := sp[i + 1];
      if c == '(' as int {
        if num >= NBRA {
          ErrorNow(sp, i, out, num0, stack, prefix0, TooManyPairs);
          err := Some(TooManyPairs);
          return;
        }
        bracket[bp] := num;
        bp := bp + 1;
        BracketCode(num);
        AddItem(sp, i, out, num0, stack, prefix, Open(num), i + 2, num + 1, stack + [num]);
        Put2(ep0, CBRA, Wrap(num));
        num := num + 1;
        prefix := prefix + [Open(num - 1)];
        assert bracket[..bp] == stack + [num - 1];
      } else if c == ')' as int {
        if bp == 0 {
          ErrorNow(sp, i, out, num0, stack, prefix0, UnmatchedClose);
          err := Some(UnmatchedClose);
          return;
        }
        bp := bp - 1;
        BracketCode(bracket[bp]);
        AddItem(sp, i, out, num0, stack, prefix, Close(bracket[bp]), i + 2, num, stack[..|stack| - 1]);
        prefix := prefix + [Close(bracket[bp])];
        Put2(ep0, CKET, Wrap(bracket[bp]));
        assert bracket[..bp] == stack[..|stack| - 1];
      } else if '1' as int <= c < '1' as int + NBRA {
        p := After(Back(c - '1' as int, false), Back(c - '1' as int, true), false);
        BracketCode(c - '1' as int);
        AddRepeatable(sp, i, out, num, stack, prefix, i + 2, p);
        Put2(ep0, CBACK, Wrap(c - '1' as int));
      } else {
        p := After(One(Char(c)), Star(Char(c)), false);
        CharCode(c);
        AddRepeatable(sp, i, out, num, stack, prefix, i + 2, p);
        Put2(ep0, CCHR, c);
      }
    }

    /** re_comp. */
    method ReComp(sp: Text) returns (reply: Reply)
      requires Valid() && NoNul(sp) && (sp != [] ==> ParseText(sp) != Err(Truncated))
      modifies expbuf, `circf
      ensures sp == [] ==> expbuf[..] == old(expbuf[..]) && circf == old(circf)
      ensures sp == [] ==> reply == if expbuf[0] == 0 then NoPrevious else Fine
      ensures sp != [] ==>
                match ParseText(sp)
                case Err(e) => reply == Failed(e) && expbuf[0] == 0
                case Ok(re) =>
                  && reply == Fine && Holds(re) && circf == Anchored(sp)
                  && |FullCode(re)| <= ESIZE + 1 && expbuf[..|FullCode(re)|] == FullCode(re)
    {
      hide Parse, State, Code, ItemCode, FullCode;
      if sp == [] {
        return if expbuf[0] == 0 then NoPrevious else Fine;
      }
      circf := At(sp, 0) == '^' as int;
      var i: nat, ep: nat, lastep: int, num: nat := if circf then 1 else 0, 0, -1, 0;
      var bracket, bp: nat := new nat[NBRA](_ => 0), 0;
      ghost var prefix, p := [], Idle;
      Start(sp);
      assert expbuf[..0] == [] && bracket[..0] == [];
      while true
        invariant Valid() && i <= |sp| && ep <= ESIZE + 1 && bp <= num <= NBRA && circf == Anchored(sp) && fresh(bracket)
        invariant bracket.Length == NBRA
        invariant State(sp, i, expbuf[..ep], num, bracket[..bp], prefix, p) && LastOp(expbuf[..ep], lastep, prefix, p)
        decreases |sp| - i
      {
        ghost var out := expbuf[..ep];
        if ep >= ESIZE {
          TooLongNow(sp, i, out, num, bracket[..bp], prefix, p);
          reply := ComErr(TooLong);
          return;
        }
        var c := At(sp, i);
        if c != '*' as int {
          lastep := ep;
          if p.After? {
            Flush(sp, i, out, num, bracket[..bp], prefix, p);
            prefix, p := prefix + [Current(p)], Idle;
          }
        }
        if c == 0 {
          AllDone(sp, out, num, bracket[..bp], prefix, p);
          if bp != 0 {
            assert bracket[..bp] != [];
            reply := ComErr(UnmatchedOpen);
            return;
          }
          Put2(ep, CEOF, 0);
          HoldsAll(ParseText(sp).value, ep + 2);
          return Fine;
        }
        NotDollar(sp, i, out, num, bracket[..bp], prefix, p);
        if c == '*' as int {
          ep, prefix, p := CompileStar(sp, i, ep, lastep, num, bracket[..bp], prefix, p);
          i := i + 1;
        } else if c == '[' as int {
          var err;
          err, i, ep, p := CompileBracket(sp, i, ep, num, bracket[..bp], prefix);
          if err.Some? {
            reply := ComErr(err.value);
            return;
          }
        } else if c == '\\' as int {
          var err;
          err, ep, num, bp, prefix, p := CompileEscape(sp, i, ep, num, bracket, bp, prefix);
          if err.Some? {
            reply := ComErr(err.value);
            return;
          }
          i := i + 2;
        } else {
          ep, p := CompilePlain(sp, i, ep, num, bracket[..bp], prefix);
          i := i + 1;
        }
      }
    }

    lemma HoldsAll(re: RegExp, len: nat)
      requires Valid() && len <= ESIZE + 1 && expbuf[..len] == FullCode(re)
      ensures Holds(re)
    {
      var c := Code(re.items) + EndCode(re.dollar);
      assert FullCode(re)[..|c|] == c;
      assert expbuf[..ESIZE][0..|c|] == expbuf[..len][..|c|];
    }

    /** A range, spelled out above its low end, which was the last byte. */
    method Spell(ep0: nat, c: Byte) returns (full: bool, ep: nat)
      requires Valid() && 0 < ep0 < ESIZE
      modifies expbuf
      ensures ep0 <= ep <= ESIZE && expbuf[..ep0] == old(expbuf[..ep0])
      ensures full <==> ep0 + |Above(old(expbuf[ep0 - 1]), c)| >= ESIZE
      ensures !full ==> ep < ESIZE && expbuf[ep0..ep] == Above(old(expbuf[ep0 - 1]), c)
    {
      ep := ep0;
      ghost var all := Above(expbuf[ep0 - 1], c);
      while expbuf[ep - 1] < c
        invariant ep0 <= ep < ESIZE && expbuf[..ep0] == old(expbuf[..ep0])
        invariant all == expbuf[ep0..ep] + Above(expbuf[ep - 1], c)
        decreases c - expbuf[ep - 1]
      {
        expbuf[ep] := expbuf[ep - 1] + 1;
        ep := ep + 1;
        assert expbuf[ep0..ep] == expbuf[ep0..ep - 1] + [expbuf[ep - 1]];
        if ep >= ESIZE {
          return true, ep;
        }
      }
      full := false;
    }
  }

  lemma KeptBelow(now: Text, before: Text, start: nat, lo: nat)
    requires lo <= start <= |now| && |before| == |now| && now[..start] == before[..start]
    ensures now[..lo] == before[..lo] && now[lo..start] == before[lo..start] && (lo < start ==> now[lo] == before[lo])
  {
    assert now[..lo] == now[..start][..lo] && before[..lo] == before[..start][..lo];
    assert now[lo..start] == now[..start][lo..] && before[lo..start] == before[..start][lo..];
  }

  /** What the parser does with the class character at k. */
  lemma ClassStep(t: Text, k: nat, elems: seq<Elem>, len: nat)
    requires NoNul(t) && k <= |t|
    ensures k == |t| ==> ParseClass(t, k, elems, len) == Err(MissingBracket)
    ensures k < |t| && t[k] == ']' as int && elems != [] ==> ParseClass(t, k, elems, len) == Ok(Bracketed(elems, k + 1))
    ensures k < |t| && t[k] == '-' as int && elems != [] ==>
              if At(t, k + 1) == ']' as int then
                ParseClass(t, k, elems, len) == Ok(Bracketed(elems + [Single('-' as int)], k + 2))
              else
                var e := Upto(LastOf(elems[|elems| - 1]), At(t, k + 1));
                && (len + |ElemBytes(e)| >= ESIZE ==> ParseClass(t, k, elems, len) == Err(TooLong))
                && (len + |ElemBytes(e)| < ESIZE && k + 1 == |t| ==> ParseClass(t, k, elems, len) == Err(Truncated))
                && (len + |ElemBytes(e)| < ESIZE && k + 1 < |t| ==>
                      ParseClass(t, k, elems, len) == ParseClass(t, k + 2, elems + [e], len + |ElemBytes(e)|))
    ensures k < |t| && (elems == [] || (t[k] != '-' as int && t[k] != ']' as int)) ==>
              ParseClass(t, k, elems, len) ==
              if len + 1 >= ESIZE then Err(TooLong) else ParseClass(t, k + 1, elems + [Single(t[k])], len + 1)
  {
    hide ElemBytes, LastOf;
  }

  lemma BytesNext(elems: seq<Elem>, e: Elem)
    ensures Bytes(elems + [e]) == Bytes(elems) + ElemBytes(e)
  {
    assert (elems + [e])[..|elems|] == elems;
  }

  datatype Reply = Fine | NoPrevious | Failed(error: Error)

  lemma FoundAnchored(re: RegExp, s: Text)
    ensures Found(re, true, s) <==> Accepts(re.items, re.dollar, s, 0)
  {
    hide In;
  }

  lemma FoundFrom(re: RegExp, s: Text)
    ensures Found(re, false, s) <==> exists i :: 0 <= i <= |s| && Accepts(re.items, re.dollar, s, i)
  {
    hide In;
    if Found(re, false, s) {
      var i, j :| 0 <= i <= j <= |s| && (re.dollar ==> j == |s|) && In(re.items, s[i..j]);
      assert Accepts(re.items, re.dollar, s, i);
    }
  }

  /** Code that starts with an unstarred character: every match starts with it. */
  lemma FirstChar(code: Text, re: RegExp)
    requires CodeAt(code, 0, re.items, re.dollar) && Plain(re.items) && |code| > 0 && code[0] == CCHR
    ensures |code| > 1 && code[1] != 0 && re.items != [] && re.items[0] == One(Char(code[1]))
  {
    hide Bytes;
    Decode(code, 0, re.items, re.dollar);
    var c := ItemCode(re.items[0]);
    CodeBytes(code, 0, c, 0);
    CodeBytes(code, 0, c, if |c| > 1 then 1 else 0);
  }

  lemma AtEnd(s: Text, lp: nat)
    requires NoNul(s) && lp <= |s|
    ensures At(s, lp) == 0 <==> lp == |s|
  {
  }

  /** What the opcode at ep says about the items there. */
  lemma Decode(code: Text, ep: nat, items: seq<Item>, dollar: bool)
    requires CodeAt(code, ep, items, dollar) && Plain(items)
    ensures ep < |code| && code[ep] != 0
    ensures items == [] ==> code[ep] == if dollar then CDOL else CEOF
    ensures items != [] ==>
              && CodeIs(code, ep, ItemCode(items[0])) && code[ep] != CEOF && code[ep] != CDOL && Plain(items[1..])
              && CodeAt(code, ep + |ItemCode(items[0])|, items[1..], dollar)
              && (items[0].One? <==> code[ep] == CCHR || code[ep] == CDOT || code[ep] == CCL || code[ep] == NCCL)
              && (items[0].Open? <==> code[ep] == CBRA) && (items[0].Close? <==> code[ep] == CKET)
              && PlainItem(items[0])
              && (items[0].Open? || items[0].Close? ==>
                    |ItemCode(items[0])| == 2 && ep + 1 < |code| && code[ep + 1] as int == items[0].k < NBRA)
  {
    hide PlainAtom, Bytes, Code;
    if items == [] {
      CodeEnd(code, ep, dollar);
    } else {
      CodeNext(code, ep, items, dollar);
      var c := ItemCode(items[0]);
      assert PlainItem(items[0]);
      CodeBytes(code, ep, c, 0);
      if |c| == 2 {
        CodeBytes(code, ep, c, 1);
      }
    }
  }

  // ----- compile, then match -----

  /** What the proof of matching leaves out: back-references, and classes too
      long for their count. */
  predicate Supported(items: seq<Item>) {
    forall k :: 0 <= k < |items| ==> SupportedItem(items[k])
  }

  predicate SupportedItem(item: Item) {
    !item.Back? && ((item.One? || item.Star?) && item.a.Class? ==> |Bytes(item.a.elems)| <= 126)
  }

  /** What the parser makes sure of. */
  predicate Sound(item: Item) {
    match item
    case One(a) => SoundAtom(a)
    case Star(a) => SoundAtom(a)
    case Open(k) => k < NBRA
    case Close(k) => k < NBRA
    case Back(_, _) => true
  }

  predicate SoundAtom(a: Atom) {
    match a
    case Char(c) => c != 0
    case Any => true
    case Class(elems, _) => elems != [] && Chained(elems)
  }

  lemma {:induction false} ClassSound(t: Text, i: nat, elems: seq<Elem>, len: nat)
    requires Chained(elems)
    ensures var r := ParseClass(t, i, elems, len); r.Ok? ==> r.value.elems != [] && Chained(r.value.elems)
    decreases |t| - i
  {
    hide Bytes, ElemBytes;
    if i >= |t| || (t[i] == ']' as int && elems != []) {
    } else if t[i] == '-' as int && elems != [] {
      if i + 1 < |t| && t[i + 1] != ']' as int {
        ClassSound(t, i + 2, elems + [Upto(LastOf(elems[|elems| - 1]), t[i + 1])], len + |ElemBytes(Upto(LastOf(elems[|elems| - 1]), t[i + 1]))|);
      }
    } else {
      ClassSound(t, i + 1, elems + [Elem.Single(t[i])], len + 1);
    }
  }

  predicate AllSound(r: Result<RegExp>) {
    r.Ok? ==> forall k :: 0 <= k < |r.value.items| ==> Sound(r.value.items[k])
  }

  lemma {:induction false} StarsSound(plain: Item, starred: Item, t: Text, i: nat, num: nat, stack: seq<nat>, len: nat)
    requires NoNul(t) && i <= |t| && Sound(plain) && Sound(starred) && num <= NBRA && forall k :: k in stack ==> k < NBRA
    ensures AllSound(WithStars(plain, starred, t, i, num, stack, len))
    decreases |t| - i, 1
  {
    hide Parse, Sound;
    if len < ESIZE {
      ParseSound(t, SkipStars(t, i), num, stack, len);
    }
  }

  lemma {:induction false} ParseSound(t: Text, i: nat, num: nat, stack: seq<nat>, len: nat)
    requires NoNul(t) && i <= |t| && num <= NBRA && forall k :: k in stack ==> k < NBRA
    ensures AllSound(Parse(t, i, num, stack, len))
    decreases |t| - i, 0
  {
    hide Parse, WithStars, ClassAt;
    if len >= ESIZE {
      TooLongHere(t, i, num, stack, len);
    } else if i == |t| {
      ParseEnd(t, num, stack, len);
    } else if t[i] == '[' as int {
      ParseBracket(t, i, num, stack, len);
      var r := ClassAt(t, i + 1, len + 2);
      if r.Ok? {
        ClassAtSound(t, i + 1, len + 2);
        var a := Class(r.value.elems, Negated(t, i + 1));
        StarsSound(One(a), Star(a), t, r.value.next, num, stack, len + 2 + |Bytes(r.value.elems)|);
      }
    } else if t[i] == '\\' as int {
      EscapeSound(t, i, num, stack, len);
    } else {
      ParsePlain(t, i, num, stack, len);
      if t[i] == '*' as int {
        ParseSound(t, i + 1, num, stack, len + 2);
      } else {
        StarsSound(One(Any), Star(Any), t, i + 1, num, stack, len + 1);
        StarsSound(One(Char(t[i])), Star(Char(t[i])), t, i + 1, num, stack, len + 2);
      }
    }
  }

  lemma TooLongHere(t: Text, i: nat, num: nat, stack: seq<nat>, len: nat)
    requires i <= |t| && len >= ESIZE
    ensures Parse(t, i, num, stack, len) == Err(TooLong)
  {
  }

  lemma ClassAtSound(t: Text, i: nat, len: nat)
    ensures var r := ClassAt(t, i, len); r.Ok? ==> r.value.elems != [] && Chained(r.value.elems)
  {
    ClassSound(t, if Negated(t, i) then i + 1 else i, [], len);
  }

  lemma {:induction false} EscapeSound(t: Text, i: nat, num: nat, stack: seq<nat>, len: nat)
    requires NoNul(t) && i < |t| && t[i] == '\\' as int && num <= NBRA && len < ESIZE && forall k :: k in stack ==> k < NBRA
    ensures AllSound(Parse(t, i, num, stack, len))
    decreases |t| - i - 1, 3
  {
    hide Parse, WithStars;
    ParseEscape(t, i, num, stack, len);
    if i + 1 < |t| {
      var d := t[i + 1];
      if d == '(' as int {
        if num < NBRA {
          ParseSound(t, i + 2, num + 1, stack + [num], len + 2);
        }
      } else if d == ')' as int {
        if stack != [] {
          var top := |stack| - 1;
          assert stack[top] in stack;
          forall k | k in stack[..top] ensures k in stack && k < NBRA {
            var j :| 0 <= j < top && stack[j] == k;
          }
          ParseSound(t, i + 2, num, stack[..top], len + 2);
        }
      } else if '1' as int <= d < '1' as int + NBRA {
        StarsSound(Back(d - '1' as int, false), Back(d - '1' as int, true), t, i + 2, num, stack, len + 2);
      } else {
        StarsSound(One(Char(d)), Star(Char(d)), t, i + 2, num, stack, len + 2);
      }
    }
  }

  lemma SupportedPlain(t: Text)
    requires NoNul(t) && t != [] && ParseText(t).Ok? && Supported(ParseText(t).value.items)
    ensures Plain(ParseText(t).value.items)
  {
    hide Parse;
    ParseSound(t, if Anchored(t) then 1 else 0, 0, [], 0);
    var items := ParseText(t).value.items;
    forall k | 0 <= k < |items| ensures PlainItem(items[k]) {
      assert Sound(items[k]) && SupportedItem(items[k]);
    }
  }

  /** Compiling a pattern and matching a subject: the answer is the meaning of
      the pattern text. */
  method Search(pattern: Text, s: Text) returns (reply: Reply, found: int)
    requires NoNul(pattern) && NoNul(s) && pattern != [] && ParseText(pattern) != Err(Truncated)
    requires ParseText(pattern).Ok? ==> Supported(ParseText(pattern).value.items)
    ensures match ParseText(pattern)
            case Err(e) => reply == Failed(e) && found == -1
            case Ok(re) => reply == Fine && found == if Found(re, Anchored(pattern), s) then 1 else 0
  {
    hide Parse, Found, Code, Plain, CodeAt;
    var m := new Matcher();
    reply := m.ReComp(pattern);
    ghost var re := RegExp([], false);
    if ParseText(pattern).Ok? {
      re := ParseText(pattern).value;
      SupportedPlain(pattern);
      Decode(m.expbuf[..ESIZE], 0, re.items, re.dollar);
    }
    found := m.ReExec(s, re);
  }

  // ----- patterns at the end of the buffer -----

  function Dots(n: nat): Text { seq(n, _ => '.' as int) }

  lemma {:induction false} DotsParsed(n: nat, i: nat)
    requires i <= n
    ensures var r := Parse(Dots(n), i, 0, [], i);
            && (r.Ok? <==> n < ESIZE)
            && (r.Ok? ==> !r.value.dollar && |Code(r.value.items)| == n - i)
    decreases n - i
  {
    if i < n {
      DotsParsed(n, i + 1);
    }
  }

  /** The longest patterns: 511 dots are accepted, and their code, with its 0, is one
      byte longer than the array of the source. */
  lemma LongestDots(n: nat)
    requires n > 0
    ensures ParseText(Dots(n)).Ok? <==> n < ESIZE
    ensures ParseText(Dots(n)).Ok? ==> |FullCode(ParseText(Dots(n)).value)| == n + 2
  {
    DotsParsed(n, 0);
  }
}
