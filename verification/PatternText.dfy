/** Writing a regular expression down, and reading it back. */
module PatternText {
  import opened Pattern
  import opened RegexCode
  import opened RegexCompile

  /** Characters that are quoted to stand for themselves. */
  predicate Special(c: Byte) {
    c == '.' as int || c == '*' as int || c == '[' as int || c == '\\' as int || c == '$' as int || c == '^' as int
  }

  function ElemText(e: Elem): Text {
    match e
    case Single(c) => [c]
    case Upto(_, hi) => ['-' as int, hi]
  }

  function ClassText(elems: seq<Elem>): Text {
    if elems == [] then [] else ClassText(elems[..|elems| - 1]) + ElemText(elems[|elems| - 1])
  }

  function AtomText(a: Atom): Text {
    match a
    case Char(c) => if Special(c) then ['\\' as int, c] else [c]
    case Any => ['.' as int]
    case Class(elems, negated) =>
      ['[' as int] + (if negated then ['^' as int] else []) + ClassText(elems) + [']' as int]
  }

  function ItemText(item: Item): Text {
    match item
    case One(a) => AtomText(a)
    case Star(a) => AtomText(a) + ['*' as int]
    case Open(_) => ['\\' as int, '(' as int]
    case Close(_) => ['\\' as int, ')' as int]
    case Back(k, star) => ['\\' as int, Wrap('1' as int + k)] + if star then ['*' as int] else []
  }

  function ItemsText(items: seq<Item>): Text {
    if items == [] then [] else ItemText(items[0]) + ItemsText(items[1..])
  }

  function Render(re: RegExp, anchored: bool): Text {
    (if anchored then ['^' as int] else []) + ItemsText(re.items) + DollarText(re.dollar)
  }

  function DollarText(dollar: bool): Text { if dollar then ['$' as int] else [] }

  // ----- what can be written down -----

  /** The members of a class as a text can give them: ranges go on from the member before,
      a ] comes first, a - first or last, and a ^ is not taken for the mark of negation. */
  predicate Listable(elems: seq<Elem>, negated: bool) {
    elems != [] && forall k :: 0 <= k < |elems| ==> MemberOk(elems, negated, k)
  }

  predicate MemberOk(elems: seq<Elem>, negated: bool, k: nat)
    requires k < |elems|
  {
    match elems[k]
    case Single(c) =>
      && (c == ']' as int ==> k == 0)
      && (c == '-' as int ==> k == 0 || k == |elems| - 1)
      && (c == '^' as int && k == 0 ==> negated)
    case Upto(lo, hi) => k > 0 && lo == LastOf(elems[k - 1]) && hi != ']' as int
  }

  predicate AtomOk(a: Atom) { a.Class? ==> Listable(a.elems, a.negated) }

  /** May the item come where num pairs were opened and those of the stack are still open? */
  predicate ItemOk(item: Item, num: nat, stack: seq<nat>) {
    match item
    case One(a) => AtomOk(a)
    case Star(a) => AtomOk(a)
    case Open(k) => k == num < NBRA
    case Close(k) => stack != [] && k == stack[|stack| - 1]
    case Back(k, _) => k < NBRA
  }

  function NumAfter(item: Item, num: nat): nat { if item.Open? then num + 1 else num }

  function StackAfter(item: Item, num: nat, stack: seq<nat>): seq<nat>
    requires ItemOk(item, num, stack)
  {
    if item.Open? then stack + [num] else if item.Close? then stack[..|stack| - 1] else stack
  }

  /** Pairs are numbered as they open, and all are closed. */
  predicate Nested(items: seq<Item>, num: nat, stack: seq<nat>) {
    if items == [] then stack == []
    else
      && ItemOk(items[0], num, stack)
      && Nested(items[1..], NumAfter(items[0], num), StackAfter(items[0], num, stack))
  }

  // ----- classes -----

  lemma {:induction false} ClassTextPart(elems: seq<Elem>, n: nat)
    requires n < |elems|
    ensures var m := n + 1;
            && |ClassText(elems[..m])| <= |ClassText(elems)|
            && ClassText(elems[..m]) == ClassText(elems[..n]) + ElemText(elems[n])
            && ClassText(elems)[..|ClassText(elems[..m])|] == ClassText(elems[..m])
            && |Bytes(elems[..m])| <= |Bytes(elems)|
            && |Bytes(elems[..m])| == |Bytes(elems[..n])| + |ElemBytes(elems[n])|
    decreases |elems|
  {
    hide ElemText, ElemBytes;
    var m := n + 1;
    assert elems[..m][..n] == elems[..n];
    if m < |elems| {
      var most := elems[..|elems| - 1];
      ClassTextPart(most, n);
      assert most[..m] == elems[..m] && most[..n] == elems[..n];
    } else {
      assert elems[..m] == elems;
    }
  }

  /** The class text stands at start, with its bracket behind it. */
  predicate ClassStands(t: Text, start: nat, elems: seq<Elem>) {
    var c := ClassText(elems);
    start + |c| < |t| && t[start..start + |c|] == c && t[start + |c|] == ']' as int
  }

  lemma SliceAt(t: Text, start: nat, c: Text, k: nat)
    requires start + |c| <= |t| && t[start..start + |c|] == c && k < |c|
    ensures t[start + k] == c[k]
  {
    assert t[start..start + |c|][k] == t[start + k];
  }

  lemma PrefixAt(c: Text, e: Text, k: nat)
    requires |e| <= |c| && c[..|e|] == e && k < |e|
    ensures c[k] == e[k]
  {
    assert c[..|e|][k] == c[k];
  }

  lemma AppendedAt(d: Text, e: Text, q: nat)
    requires q < |e|
    ensures (d + e)[|d| + q] == e[q]
  {
  }

  lemma ClassAtSlice(t: Text, start: nat, elems: seq<Elem>, k: nat)
    requires ClassStands(t, start, elems) && k < |ClassText(elems)|
    ensures start + k < |t| && t[start + k] == ClassText(elems)[k]
  {
    hide ClassText;
    SliceAt(t, start, ClassText(elems), k);
  }

  lemma InsideAt(c: Text, d: Text, x: Text, e: Text, q: nat)
    requires e == d + x && |e| <= |c| && c[..|e|] == e && q < |x|
    ensures |d| + q < |c| && c[|d| + q] == x[q]
  {
    AppendedAt(d, x, q);
    PrefixAt(c, e, |d| + q);
  }

  lemma ClassPart(elems: seq<Elem>, n: nat, q: nat)
    requires n < |elems| && q < |ElemText(elems[n])|
    ensures var k := |ClassText(elems[..n])| + q;
            k < |ClassText(elems)| && ClassText(elems)[k] == ElemText(elems[n])[q]
  {
    ClassTextPart(elems, n);
    hide ElemText, ClassText, Bytes, ElemBytes;
    var c, d, x, e := ClassText(elems), ClassText(elems[..n]), ElemText(elems[n]), ClassText(elems[..n + 1]);
    InsideAt(c, d, x, e, q);
  }

  lemma ClassHere(t: Text, start: nat, elems: seq<Elem>, n: nat, q: nat)
    requires ClassStands(t, start, elems) && n < |elems| && q < |ElemText(elems[n])|
    ensures var k := start + |ClassText(elems[..n])| + q;
            k < start + |ClassText(elems)| && k < |t| && t[k] == ElemText(elems[n])[q]
  {
    hide ElemText, ClassText, ClassStands;
    ClassPart(elems, n, q);
    var k := |ClassText(elems[..n])| + q;
    ClassAtSlice(t, start, elems, k);
  }

  /** One member, or the end of a class. */
  lemma MemberRead(t: Text, k: nat, elems: seq<Elem>, len: nat)
    requires k < |t|
    ensures elems != [] && t[k] == ']' as int ==> ParseClass(t, k, elems, len) == Ok(Bracketed(elems, k + 1))
    ensures elems != [] && t[k] == '-' as int && k + 1 < |t| && t[k + 1] == ']' as int ==>
              ParseClass(t, k, elems, len) == Ok(Bracketed(elems + [Single('-' as int)], k + 2))
    ensures elems != [] && t[k] == '-' as int && k + 1 < |t| && t[k + 1] != ']' as int ==>
              var e := Upto(LastOf(elems[|elems| - 1]), t[k + 1]);
              ParseClass(t, k, elems, len) ==
              if len + |ElemBytes(e)| >= ESIZE then Err(TooLong)
              else ParseClass(t, k + 2, elems + [e], len + |ElemBytes(e)|)
    ensures elems == [] || (t[k] != ']' as int && t[k] != '-' as int) ==>
              ParseClass(t, k, elems, len) ==
              if len + 1 >= ESIZE then Err(TooLong) else ParseClass(t, k + 1, elems + [Single(t[k])], len + 1)
  {
    hide ElemBytes;
  }

  lemma ListableAt(elems: seq<Elem>, negated: bool, n: nat)
    requires Listable(elems, negated) && n < |elems|
    ensures elems[n].Upto? ==> n > 0 && elems[n].lo == LastOf(elems[n - 1]) && elems[n].hi != ']' as int
    ensures elems[n].Single? ==>
              (elems[n].c == ']' as int ==> n == 0) && (elems[n].c == '-' as int ==> n == 0 || n == |elems| - 1)
  {
    assert MemberOk(elems, negated, n);
  }

  /** What is read from the n-th member on: all of them, or the code is too long. */
  predicate AllRead(r: Result<Bracketed>, elems: seq<Elem>, next: nat, long: bool) {
    r == Ok(Bracketed(elems, next)) || (r == Err(TooLong) && long)
  }

  lemma {:induction false} ClassRead(t: Text, start: nat, elems: seq<Elem>, negated: bool, n: nat, base: nat)
    requires Listable(elems, negated) && ClassStands(t, start, elems) && n <= |elems|
    ensures AllRead(ParseClass(t, start + |ClassText(elems[..n])|, elems[..n], base + |Bytes(elems[..n])|),
                    elems, start + |ClassText(elems)| + 1, base + |Bytes(elems)| >= ESIZE)
    decreases |elems| - n
  {
    hide Bytes, ElemBytes, ClassText, ParseClass, Listable;
    var k, len := start + |ClassText(elems[..n])|, base + |Bytes(elems[..n])|;
    if n == |elems| {
      assert elems[..n] == elems;
      ListableSome(elems, negated);
      MemberRead(t, k, elems, len);
    } else {
      ClassTextPart(elems, n);
      ListableAt(elems, negated, n);
      ClassHere(t, start, elems, n, 0);
      MemberRead(t, k, elems[..n], len);
      assert elems[..n] + [elems[n]] == elems[..n + 1];
      if elems[n].Single? && elems[n].c == '-' as int && n > 0 {
        assert elems[..n + 1] == elems;
      } else if elems[n].Single? {
        SingleBytes(elems[n].c);
        ClassRead(t, start, elems, negated, n + 1, base);
      } else {
        ClassHere(t, start, elems, n, 1);
        ClassRead(t, start, elems, negated, n + 1, base);
        assert elems[..n][n - 1] == elems[n - 1];
      }
    }
  }

  lemma ListableSome(elems: seq<Elem>, negated: bool)
    requires Listable(elems, negated)
    ensures elems != [] && (elems[0].Single? && elems[0].c == '^' as int ==> negated)
    ensures elems[0].Single?
  {
    assert MemberOk(elems, negated, 0);
  }

  lemma SingleBytes(c: Byte)
    ensures |ElemBytes(Single(c))| == 1
  {
  }

  // ----- items -----

  /** The text of an item stands at i, and no star behind it. */
  predicate ItemStands(t: Text, i: nat, item: Item) {
    var c := ItemText(item);
    i + |c| <= |t| && t[i..i + |c|] == c && (i + |c| < |t| ==> t[i + |c|] != '*' as int)
  }

  lemma StarsHere(t: Text, i: nat)
    requires i <= |t|
    ensures i < |t| && t[i] == '*' as int ==> SkipStars(t, i) == SkipStars(t, i + 1)
    ensures !(i < |t| && t[i] == '*' as int) ==> SkipStars(t, i) == i
  {
  }

  /** What follows an atom or back-reference that has been read up to i. */
  lemma StarsRead(plain: Item, starred: Item, t: Text, i: nat, num: nat, stack: seq<nat>, len: nat, star: bool)
    requires if star then i + 1 <= |t| && t[i] == '*' as int && (i + 1 < |t| ==> t[i + 1] != '*' as int)
             else i <= |t| && (i < |t| ==> t[i] != '*' as int)
    ensures WithStars(plain, starred, t, i, num, stack, len)
         == Prepend(if star then starred else plain, Parse(t, if star then i + 1 else i, num, stack, len))
  {
    hide Prepend;
    StarsHere(t, i);
    if star {
      StarsHere(t, i + 1);
    }
    if len >= ESIZE {
      TooLongHere(t, if star then i + 1 else i, num, stack, len);
      assert Prepend(if star then starred else plain, Err(TooLong)) == Err(TooLong) by {
        PrependError(if star then starred else plain, TooLong);
      }
    }
  }

  lemma PrependError(item: Item, e: Error)
    ensures Prepend(item, Err(e)) == Err(e)
  {
  }

  lemma TooLongHere(t: Text, i: nat, num: nat, stack: seq<nat>, len: nat)
    requires i <= |t| && len >= ESIZE
    ensures Parse(t, i, num, stack, len) == Err(TooLong)
  {
  }

  /** One item is read, and then the rest; if its code is too long, so is the rest. */
  predicate ItemRead(t: Text, i: nat, item: Item, num: nat, stack: seq<nat>, len: nat)
    requires ItemOk(item, num, stack) && i + |ItemText(item)| <= |t|
  {
    Parse(t, i, num, stack, len)
    == Prepend(item, Parse(t, i + |ItemText(item)|, NumAfter(item, num), StackAfter(item, num, stack), len + |ItemCode(item)|))
  }

  lemma CharRead(t: Text, i: nat, c: Byte, star: bool, num: nat, stack: seq<nat>, len: nat)
    requires len < ESIZE && ItemStands(t, i, if star then Star(Char(c)) else One(Char(c)))
    ensures ItemRead(t, i, if star then Star(Char(c)) else One(Char(c)), num, stack, len)
  {
    hide Prepend, WithStars, Parse;
    var item := if star then Star(Char(c)) else One(Char(c));
    var a := AtomText(Char(c));
    SliceAt(t, i, ItemText(item), 0);
    SliceAt(t, i, ItemText(item), |ItemText(item)| - 1);
    if Special(c) {
      SliceAt(t, i, ItemText(item), 1);
      ParseEscape(t, i, num, stack, len);
    } else {
      ParsePlain(t, i, num, stack, len);
    }
    StarsRead(One(Char(c)), Star(Char(c)), t, i + |a|, num, stack, len + 2, star);
  }

  lemma AnyRead(t: Text, i: nat, star: bool, num: nat, stack: seq<nat>, len: nat)
    requires len < ESIZE && ItemStands(t, i, if star then Star(Any) else One(Any))
    ensures ItemRead(t, i, if star then Star(Any) else One(Any), num, stack, len)
  {
    hide Prepend, WithStars, Parse;
    var item := if star then Star(Any) else One(Any);
    SliceAt(t, i, ItemText(item), 0);
    SliceAt(t, i, ItemText(item), |ItemText(item)| - 1);
    ParsePlain(t, i, num, stack, len);
    StarsRead(One(Any), Star(Any), t, i + 1, num, stack, len + 1, star);
  }

  lemma BackRead(t: Text, i: nat, k: nat, star: bool, num: nat, stack: seq<nat>, len: nat)
    requires len < ESIZE && k < NBRA && ItemStands(t, i, Back(k, star))
    ensures ItemRead(t, i, Back(k, star), num, stack, len)
  {
    hide Prepend, WithStars, Parse;
    var text := ItemText(Back(k, star));
    SliceAt(t, i, text, 0);
    SliceAt(t, i, text, 1);
    SliceAt(t, i, text, |text| - 1);
    ParseEscape(t, i, num, stack, len);
    StarsRead(Back(k, false), Back(k, true), t, i + 2, num, stack, len + 2, star);
  }

  lemma PairRead(t: Text, i: nat, item: Item, num: nat, stack: seq<nat>, len: nat)
    requires len < ESIZE && (item.Open? || item.Close?) && ItemOk(item, num, stack) && ItemStands(t, i, item)
    ensures ItemRead(t, i, item, num, stack, len)
  {
    hide Prepend, WithStars, Parse;
    SliceAt(t, i, ItemText(item), 0);
    SliceAt(t, i, ItemText(item), 1);
    ParseEscape(t, i, num, stack, len);
  }

  function Bracketing(c: Text, negated: bool, star: bool): Text {
    ['[' as int] + (if negated then ['^' as int] else []) + c + [']' as int] + if star then ['*' as int] else []
  }

  lemma ClassTextIs(c: Text, negated: bool, star: bool)
    ensures var t, m := Bracketing(c, negated, star), 1 + if negated then 1 else 0;
            && |t| == m + |c| + (if star then 2 else 1) && t[0] == '[' as int && t[m..m + |c|] == c
            && t[m + |c|] == ']' as int && (star ==> t[m + |c| + 1] == '*' as int) && (negated ==> t[1] == '^' as int)
  {
  }

  lemma ClassStandsAt(t: Text, i: nat, elems: seq<Elem>, negated: bool, star: bool)
    requires Listable(elems, negated)
    requires ItemStands(t, i, if star then Star(Class(elems, negated)) else One(Class(elems, negated)))
    ensures var start := i + 1 + if negated then 1 else 0;
            && ClassStands(t, start, elems) && t[i] == '[' as int && Negated(t, i + 1) == negated
            && var next := start + |ClassText(elems)| + 1;
               && |AtomText(Class(elems, negated))| == next - i
               && (if star then next < |t| && t[next] == '*' as int && (next + 1 < |t| ==> t[next + 1] != '*' as int)
                   else next <= |t| && (next < |t| ==> t[next] != '*' as int))
  {
    var item := if star then Star(Class(elems, negated)) else One(Class(elems, negated));
    var text, c := ItemText(item), ClassText(elems);
    var m := 1 + if negated then 1 else 0;
    hide ClassText;
    ClassTextIs(c, negated, star);
    if !negated {
      FirstMember(elems, negated);
      assert text[1] == text[m..m + |c|][0];
    }
    assert text == Bracketing(c, negated, star);
    SliceAt(t, i, text, 0);
    SliceAt(t, i, text, 1);
    SliceAt(t, i, text, m + |c|);
    SliceAt(t, i, text, |text| - 1);
    SubSlice(t, i, text, m, m + |c|);
  }

  lemma SubSlice(t: Text, i: nat, c: Text, m: nat, n: nat)
    requires i + |c| <= |t| && t[i..i + |c|] == c && m <= n <= |c|
    ensures t[i + m..i + n] == c[m..n]
  {
    forall k | 0 <= k < n - m ensures t[i + m..i + n][k] == c[m..n][k] {
      SliceAt(t, i, c, m + k);
    }
  }

  lemma FirstMember(elems: seq<Elem>, negated: bool)
    requires Listable(elems, negated)
    ensures ClassText(elems) != [] && (ClassText(elems)[0] == '^' as int ==> negated)
  {
    ListableSome(elems, negated);
    ClassTextPart(elems, 0);
    assert elems[..0] == [] && ClassText([]) == [];
    assert ClassText(elems)[0] == ClassText(elems)[..1][0];
  }

  /** The class at i has been read, or its code is too long. */
  lemma ClassParsed(t: Text, i: nat, elems: seq<Elem>, negated: bool, num: nat, stack: seq<nat>, len: nat)
    requires len < ESIZE && Listable(elems, negated) && i + 1 < |t| && t[i] == '[' as int && Negated(t, i + 1) == negated
    requires ClassStands(t, i + 1 + if negated then 1 else 0, elems)
    ensures var a, long := Class(elems, negated), len + 2 + |Bytes(elems)|;
            var next := i + 2 + (if negated then 1 else 0) + |ClassText(elems)|;
            && next <= |t|
            && (Parse(t, i, num, stack, len) == WithStars(One(a), Star(a), t, next, num, stack, long)
                || (Parse(t, i, num, stack, len) == Err(TooLong) && long >= ESIZE))
  {
    hide Prepend, WithStars, Parse, ParseClass, Bytes, ClassText, Listable;
    var start := i + 1 + if negated then 1 else 0;
    ClassRead(t, start, elems, negated, 0, len + 2);
    NothingYet(elems);
    ParseBracket(t, i, num, stack, len);
  }

  lemma ClassSizes(elems: seq<Elem>, negated: bool, star: bool)
    ensures var a := Class(elems, negated);
            var item := if star then Star(a) else One(a);
            && |ItemText(item)| == |AtomText(a)| + (if star then 1 else 0) && |ItemCode(item)| == 2 + |Bytes(elems)|
            && |AtomText(a)| == 2 + (if negated then 1 else 0) + |ClassText(elems)|
  {
    hide Bytes, ClassText;
  }

  lemma ClassItemRead(t: Text, i: nat, elems: seq<Elem>, negated: bool, star: bool, num: nat, stack: seq<nat>, len: nat)
    requires len < ESIZE && Listable(elems, negated)
    requires ItemStands(t, i, if star then Star(Class(elems, negated)) else One(Class(elems, negated)))
    ensures ItemRead(t, i, if star then Star(Class(elems, negated)) else One(Class(elems, negated)), num, stack, len)
  {
    hide Prepend, WithStars, Parse, Bytes, ClassText, Listable, ItemStands, ClassStands;
    var a := Class(elems, negated);
    ClassStandsAt(t, i, elems, negated, star);
    ClassParsed(t, i, elems, negated, num, stack, len);
    ClassSizes(elems, negated, star);
    hide ItemText, ItemCode, AtomText;
    var next := i + 2 + (if negated then 1 else 0) + |ClassText(elems)|;
    var long := len + 2 + |Bytes(elems)|;
    StarsRead(One(a), Star(a), t, next, num, stack, long, star);
    if long >= ESIZE {
      TooLongHere(t, if star then next + 1 else next, num, stack, long);
      PrependError(if star then Star(a) else One(a), TooLong);
    }
  }

  lemma NothingYet(elems: seq<Elem>)
    ensures elems[..0] == [] && ClassText([]) == [] && Bytes([]) == []
  {
  }

  lemma ItemIsRead(t: Text, i: nat, item: Item, num: nat, stack: seq<nat>, len: nat)
    requires len < ESIZE && ItemOk(item, num, stack) && ItemStands(t, i, item)
    ensures ItemRead(t, i, item, num, stack, len)
  {
    hide ItemRead, ItemStands;
    match item
    case One(Char(c)) => CharRead(t, i, c, false, num, stack, len);
    case Star(Char(c)) => CharRead(t, i, c, true, num, stack, len);
    case One(Any) => AnyRead(t, i, false, num, stack, len);
    case Star(Any) => AnyRead(t, i, true, num, stack, len);
    case One(Class(elems, negated)) => ClassItemRead(t, i, elems, negated, false, num, stack, len);
    case Star(Class(elems, negated)) => ClassItemRead(t, i, elems, negated, true, num, stack, len);
    case Back(k, star) => BackRead(t, i, k, star, num, stack, len);
    case _ => PairRead(t, i, item, num, stack, len);
  }

  // ----- whole patterns -----

  /** No item begins with a star or a circumflex. */
  lemma ItemStarts(item: Item)
    requires item.One? || item.Star? ==> AtomOk(item.a)
    ensures ItemText(item) != [] && ItemText(item)[0] != '*' as int && ItemText(item)[0] != '^' as int
  {
  }

  lemma RestStarts(items: seq<Item>, dollar: bool, num: nat, stack: seq<nat>)
    requires Nested(items, num, stack)
    ensures var t := ItemsText(items) + DollarText(dollar);
            t != [] ==> t[0] != '*' as int && t[0] != '^' as int
  {
    if items != [] {
      ItemStarts(items[0]);
    }
  }

  function Verdict(re: RegExp, len: nat): Result<RegExp> {
    if len + |Code(re.items)| + |DollarText(re.dollar)| < ESIZE then Ok(re) else Err(TooLong)
  }

  lemma {:induction false} ItemsRead(t: Text, i: nat, re: RegExp, num: nat, stack: seq<nat>, len: nat)
    requires i <= |t| && t[i..] == ItemsText(re.items) + DollarText(re.dollar) && Nested(re.items, num, stack)
    ensures Parse(t, i, num, stack, len) == Verdict(re, len)
    decreases |re.items|
  {
    hide Parse, Prepend, ItemCode, ItemText, ItemOk;
    if len >= ESIZE {
      TooLongHere(t, i, num, stack, len);
    } else if re.items == [] {
      EndRead(t, i, re.dollar, num, stack, len);
    } else {
      var item, rest := re.items[0], re.(items := re.items[1..]);
      var next := i + |ItemText(item)|;
      RestStarts(rest.items, re.dollar, NumAfter(item, num), StackAfter(item, num, stack));
      ItemFirst(t, i, item, ItemsText(rest.items) + DollarText(re.dollar), re);
      ItemIsRead(t, i, item, num, stack, len);
      ItemsRead(t, next, rest, NumAfter(item, num), StackAfter(item, num, stack), len + |ItemCode(item)|);
      PrependVerdict(item, rest, len);
      assert [item] + rest.items == re.items;
    }
  }

  lemma ItemFirst(t: Text, i: nat, item: Item, tail: Text, re: RegExp)
    requires i <= |t| && t[i..] == ItemsText(re.items) + DollarText(re.dollar)
    requires re.items != [] && item == re.items[0] && tail == ItemsText(re.items[1..]) + DollarText(re.dollar)
    requires tail != [] ==> tail[0] != '*' as int
    ensures ItemStands(t, i, item) && t[i + |ItemText(item)|..] == tail
  {
    hide ItemText;
    var c := ItemText(item);
    assert t[i..] == c + tail;
    assert t[i..][..|c|] == t[i..i + |c|] && t[i..][|c|..] == t[i + |c|..];
  }

  lemma PrependVerdict(item: Item, rest: RegExp, len: nat)
    ensures Prepend(item, Verdict(rest, len + |ItemCode(item)|)) == Verdict(rest.(items := [item] + rest.items), len)
  {
    hide ItemCode;
    assert ([item] + rest.items)[1..] == rest.items;
  }

  lemma EndRead(t: Text, i: nat, dollar: bool, num: nat, stack: seq<nat>, len: nat)
    requires i <= |t| && t[i..] == DollarText(dollar) && stack == [] && len < ESIZE
    ensures Parse(t, i, num, stack, len) == Verdict(RegExp([], dollar), len)
  {
    hide Parse;
    if dollar {
      assert t[i] == t[i..][0] == '$' as int && |t| == i + 1;
      ParsePlain(t, i, num, stack, len);
    } else {
      assert i == |t|;
      ParseEnd(t, num, stack, len);
    }
  }

  /** Any expression that a text can give is what its text is read as, if its code fits;
      otherwise the text is too long. */
  lemma RoundTrip(re: RegExp, anchored: bool)
    requires Nested(re.items, 0, [])
    ensures var t := Render(re, anchored);
            && Anchored(t) == anchored
            && ParseText(t) ==
               if |Code(re.items)| + |DollarText(re.dollar)| < ESIZE then Ok(re) else Err(TooLong)
  {
    var t := Render(re, anchored);
    RestStarts(re.items, re.dollar, 0, []);
    RenderParts(re, anchored);
    hide Parse, Nested, ItemsText, Code, Render;
    ItemsRead(t, if anchored then 1 else 0, re, 0, [], 0);
  }

  lemma RenderParts(re: RegExp, anchored: bool)
    ensures var t, rest := Render(re, anchored), ItemsText(re.items) + DollarText(re.dollar);
            if anchored then |t| > 0 && t[0] == '^' as int && t[1..] == rest else t == rest && t[0..] == rest
  {
    hide ItemsText;
  }
}
