/** What pattern texts find in a subject, said of the texts and subjects themselves. */
module PatternLaws {
  import opened Pattern
  import opened RegexCode
  import opened RegexCompile
  import opened PatternText

  /** The text is a pattern, and the subject matches it somewhere. */
  ghost predicate Finds(p: Text, s: Text) {
    ParseText(p).Ok? && Found(ParseText(p).value, Anchored(p), s)
  }

  /** Characters that always stand for themselves. */
  predicate Ordinary(w: Text) {
    forall k :: 0 <= k < |w| ==>
      w[k] != '.' as int && w[k] != '*' as int && w[k] != '[' as int && w[k] != '\\' as int && w[k] != '$' as int
      && w[k] != '^' as int
  }

  function Chars(w: Text): (items: seq<Item>)
    ensures |items| == |w|
  {
    if w == [] then [] else [One(Char(w[0]))] + Chars(w[1..])
  }

  // ----- texts of items -----

  lemma {:induction false} ItemsConcat(a: seq<Item>, b: seq<Item>)
    ensures ItemsText(a + b) == ItemsText(a) + ItemsText(b) && |Code(a + b)| == |Code(a)| + |Code(b)|
  {
    hide ItemText, ItemCode;
    if a == [] {
      assert a + b == b;
    } else {
      assert (a + b)[1..] == a[1..] + b && (a + b)[0] == a[0];
      ItemsConcat(a[1..], b);
    }
  }

  lemma OneItem(item: Item)
    ensures ItemsText([item]) == ItemText(item) && |Code([item])| == |ItemCode(item)|
  {
    hide ItemText, ItemCode;
    assert [item][1..] == [];
    assert ItemsText([]) == [] && Code([]) == [];
  }

  lemma {:induction false} CharsText(w: Text)
    requires Ordinary(w)
    ensures ItemsText(Chars(w)) == w && |Code(Chars(w))| == 2 * |w| && Flat(Chars(w))
  {
    if w != [] {
      CharsText(w[1..]);
      assert Chars(w)[1..] == Chars(w[1..]);
      assert w == [w[0]] + w[1..];
    }
  }

  /** Atoms only, each of which can be written. */
  predicate Flat(items: seq<Item>) {
    forall k :: 0 <= k < |items| ==> (items[k].One? || items[k].Star?) && AtomOk(items[k].a)
  }

  lemma {:induction false} FlatNested(items: seq<Item>, num: nat)
    requires Flat(items)
    ensures Nested(items, num, [])
  {
    hide AtomOk;
    if items != [] {
      FlatNested(items[1..], num);
    }
  }

  lemma FromText(re: RegExp, anchored: bool, p: Text)
    requires Nested(re.items, 0, []) && p == Render(re, anchored) && |Code(re.items)| + 1 < ESIZE
    ensures ParseText(p) == Ok(re) && Anchored(p) == anchored
  {
    hide ParseText;
    RoundTrip(re, anchored);
  }

  // ----- languages -----

  /** Items in a row match strings in a row. */
  lemma InConcat(a: seq<Item>, b: seq<Item>, u: Text)
    ensures In(a + b, u) <==> exists k :: 0 <= k <= |u| && In(a, u[..k]) && In(b, u[k..])
  {
    hide In;
    if In(a + b, u) {
      var k := SplitsAt(a, b, u);
    }
    if k :| 0 <= k <= |u| && In(a, u[..k]) && In(b, u[k..]) {
      Joins(a, b, u, k);
    }
  }

  /** The first item of a row, and the rest. */
  lemma FirstIn(c: seq<Item>, u: Text)
    requires c != [] && In(c, u)
    ensures c[0].One? ==> u != [] && Matches(c[0].a, u[0]) && In(c[1..], u[1..])
    ensures c[0].Open? || c[0].Close? ==> In(c[1..], u)
    ensures !c[0].Back?
  {
  }

  lemma FirstStar(c: seq<Item>, u: Text) returns (n: nat)
    requires c != [] && c[0].Star? && In(c, u)
    ensures n <= |u| && AllMatch(c[0].a, u[..n]) && In(c[1..], u[n..])
  {
    n :| 0 <= n <= |u| && AllMatch(c[0].a, u[..n]) && In(c[1..], u[n..]);
  }

  lemma OneFront(a: seq<Item>, u: Text, k: nat)
    requires a != [] && a[0].One? && 1 <= k <= |u| && Matches(a[0].a, u[0]) && In(a[1..], u[1..][..k - 1])
    ensures In(a, u[..k])
  {
    assert u[1..][..k - 1] == u[..k][1..];
  }

  lemma PairFront(a: seq<Item>, u: Text)
    requires a != [] && (a[0].Open? || a[0].Close?) && In(a[1..], u)
    ensures In(a, u)
  {
  }

  lemma {:induction false} Splits(a: seq<Item>, b: seq<Item>, u: Text) returns (k: nat)
    requires a != [] && In(a + b, u)
    ensures k <= |u| && In(a, u[..k]) && In(b, u[k..])
    decreases |a|, 1
  {
    hide In, Matches, AllMatch;
    FirstIn(a + b, u);
    if a[0].One? {
      k := SplitsOne(a, b, u);
    } else if a[0].Star? {
      k := SplitsStar(a, b, u);
    } else if a[0].Open? || a[0].Close? {
      k := SplitsPair(a, b, u);
    }
  }

  lemma {:induction false} SplitsOne(a: seq<Item>, b: seq<Item>, u: Text) returns (k: nat)
    requires a != [] && In(a + b, u) && a[0].One?
    ensures k <= |u| && In(a, u[..k]) && In(b, u[k..])
    decreases |a|, 0
  {
    hide In, Matches;
    assert (a + b)[1..] == a[1..] + b && (a + b)[0] == a[0];
    FirstIn(a + b, u);
    var m := SplitsAt(a[1..], b, u[1..]);
    k := m + 1;
    OneFront(a, u, k);
    DropTwice(u, 1, m);
  }

  lemma {:induction false} SplitsStar(a: seq<Item>, b: seq<Item>, u: Text) returns (k: nat)
    requires a != [] && In(a + b, u) && a[0].Star?
    ensures k <= |u| && In(a, u[..k]) && In(b, u[k..])
    decreases |a|, 0
  {
    hide In, AllMatch;
    assert (a + b)[1..] == a[1..] + b && (a + b)[0] == a[0];
    var n := FirstStar(a + b, u);
    var m := SplitsAt(a[1..], b, u[n..]);
    k := n + m;
    StarFront(a, u, n, k);
    DropTwice(u, n, m);
  }

  lemma {:induction false} SplitsPair(a: seq<Item>, b: seq<Item>, u: Text) returns (k: nat)
    requires a != [] && In(a + b, u) && (a[0].Open? || a[0].Close?)
    ensures k <= |u| && In(a, u[..k]) && In(b, u[k..])
    decreases |a|, 0
  {
    hide In;
    assert (a + b)[1..] == a[1..] + b && (a + b)[0] == a[0];
    FirstIn(a + b, u);
    k := SplitsAt(a[1..], b, u);
    PairFront(a, u[..k]);
  }

  lemma DropTwice(u: Text, n: nat, m: nat)
    requires n + m <= |u|
    ensures u[n..][m..] == u[n + m..]
  {
  }

  lemma StarFront(a: seq<Item>, u: Text, n: nat, k: nat)
    requires a != [] && a[0].Star? && n <= k <= |u| && AllMatch(a[0].a, u[..n]) && In(a[1..], u[n..][..k - n])
    ensures In(a, u[..k])
  {
    hide AllMatch;
    assert u[n..][..k - n] == u[..k][n..] && u[..k][..n] == u[..n];
  }

  lemma {:induction false} SplitsAt(a: seq<Item>, b: seq<Item>, u: Text) returns (k: nat)
    requires In(a + b, u)
    ensures k <= |u| && In(a, u[..k]) && In(b, u[k..])
    decreases |a|, 2
  {
    if a == [] {
      assert a + b == b && u[0..] == u && u[..0] == [];
      k := 0;
    } else {
      k := Splits(a, b, u);
    }
  }

  lemma {:induction false} Joins(a: seq<Item>, b: seq<Item>, u: Text, k: nat)
    requires k <= |u| && In(a, u[..k]) && In(b, u[k..])
    ensures In(a + b, u)
    decreases |a|
  {
    if a == [] {
      assert a + b == b && k == 0 && u[0..] == u;
    } else {
      var rest := a[1..];
      assert (a + b)[1..] == rest + b && (a + b)[0] == a[0];
      match a[0]
      case One(x) =>
        assert u[1..][..k - 1] == u[..k][1..] && u[1..][k - 1..] == u[k..];
        Joins(rest, b, u[1..], k - 1);
      case Star(x) =>
        var n :| 0 <= n <= k && AllMatch(x, u[..k][..n]) && In(rest, u[..k][n..]);
        assert u[..k][..n] == u[..n] && u[n..][..k - n] == u[..k][n..] && u[n..][k - n..] == u[k..];
        Joins(rest, b, u[n..], k - n);
      case Open(_) => Joins(rest, b, u, k);
      case Close(_) => Joins(rest, b, u, k);
      case Back(_, _) =>
    }
  }

  lemma {:induction false} InChars(w: Text, u: Text)
    ensures In(Chars(w), u) <==> u == w
  {
    if w != [] {
      assert Chars(w)[1..] == Chars(w[1..]);
      if u != [] {
        InChars(w[1..], u[1..]);
        assert u == [u[0]] + u[1..] && w == [w[0]] + w[1..];
      }
    }
  }

  lemma InOne(a: Atom, u: Text)
    ensures In([One(a)], u) <==> |u| == 1 && Matches(a, u[0])
  {
    assert [One(a)][1..] == [];
    if |u| > 0 {
      assert In([], u[1..]) <==> u[1..] == [];
    }
  }

  lemma InStar(a: Atom, u: Text)
    ensures In([Star(a)], u) <==> AllMatch(a, u)
  {
    assert [Star(a)][1..] == [];
    if AllMatch(a, u) {
      assert u[..|u|] == u && In([], u[|u|..]);
    }
    if In([Star(a)], u) {
      var k :| 0 <= k <= |u| && AllMatch(a, u[..k]) && In([], u[k..]);
      assert u[k..] == [] && u[..k] == u;
    }
  }

  lemma MiddleSplit(w: Text, item: Item, v: Text, u: Text) returns (m: Text)
    requires In(Chars(w) + [item] + Chars(v), u)
    ensures In([item], m) && u == w + m + v
  {
    hide In, Chars;
    var k := SplitsAt(Chars(w) + [item], Chars(v), u);
    var j := SplitsAt(Chars(w), [item], u[..k]);
    InChars(w, u[..k][..j]);
    InChars(v, u[k..]);
    m := u[..k][j..];
    assert u == u[..k] + u[k..] && u[..k] == u[..k][..j] + u[..k][j..];
  }

  lemma MiddleJoin(w: Text, item: Item, v: Text, m: Text)
    requires In([item], m)
    ensures In(Chars(w) + [item] + Chars(v), w + m + v)
  {
    hide In, Chars;
    InChars(w, w);
    InChars(v, v);
    var u, k := w + m + v, |w| + |m|;
    assert u[..k] == w + m && u[k..] == v && (w + m)[..|w|] == w && (w + m)[|w|..] == m;
    Joins(Chars(w), [item], w + m, |w|);
    Joins(Chars(w) + [item], Chars(v), u, k);
  }

  /** An atom, starred or not, between two words. */
  lemma InMiddle(w: Text, item: Item, v: Text, u: Text)
    ensures In(Chars(w) + [item] + Chars(v), u) <==> exists m: Text :: In([item], m) && u == w + m + v
  {
    hide In, Chars;
    if In(Chars(w) + [item] + Chars(v), u) {
      var m := MiddleSplit(w, item, v, u);
    }
    if m: Text :| In([item], m) && u == w + m + v {
      MiddleJoin(w, item, v, m);
    }
  }

  lemma FoundWhole(items: seq<Item>, s: Text)
    ensures Found(RegExp(items, true), true, s) <==> In(items, s)
  {
    assert s[0..|s|] == s;
  }

  // ----- words -----

  const ROOM: nat := 250   // longest words in the laws: with their operators, their code fits

  lemma CharsRead(w: Text, dollar: bool, anchored: bool, p: Text)
    requires Ordinary(w) && |w| <= ROOM
    requires p == (if anchored then ['^' as int] else []) + w + (if dollar then ['$' as int] else [])
    ensures ParseText(p) == Ok(RegExp(Chars(w), dollar)) && Anchored(p) == anchored
  {
    hide ParseText;
    CharsText(w);
    FlatNested(Chars(w), 0);
    FromText(RegExp(Chars(w), dollar), anchored, p);
  }

  /** A word is found where it stands; after ^ only at the start, before $ only at the
      end, and between both only as the whole subject. */
  lemma WordLaw(w: Text, s: Text)
    requires Ordinary(w) && |w| <= ROOM
    ensures Finds(w, s) <==> exists i, j :: 0 <= i <= j <= |s| && s[i..j] == w
    ensures Finds(['^' as int] + w, s) <==> w <= s
    ensures Finds(w + ['$' as int], s) <==> |w| <= |s| && s[|s| - |w|..] == w
    ensures Finds(['^' as int] + w + ['$' as int], s) <==> s == w
  {
    hide ParseText, In;
    CharsRead(w, false, false, w);
    CharsRead(w, false, true, ['^' as int] + w);
    CharsRead(w, true, false, w + ['$' as int]);
    CharsRead(w, true, true, ['^' as int] + w + ['$' as int]);
    forall u: Text ensures In(Chars(w), u) <==> u == w {
      InChars(w, u);
    }
    hide Chars, Found;
    FoundSomewhere(Chars(w), w, s);
    FoundFirst(Chars(w), w, s);
    FoundLast(Chars(w), w, s);
    FoundWhole(Chars(w), s);
  }

  lemma FoundSomewhere(items: seq<Item>, w: Text, s: Text)
    requires forall u: Text :: In(items, u) <==> u == w
    ensures Found(RegExp(items, false), false, s) <==> exists i, j :: 0 <= i <= j <= |s| && s[i..j] == w
  {
    hide In;
    if i, j :| 0 <= i <= j <= |s| && s[i..j] == w {
      assert In(items, s[i..j]);
    }
  }

  lemma FoundFirst(items: seq<Item>, w: Text, s: Text)
    requires forall u: Text :: In(items, u) <==> u == w
    ensures Found(RegExp(items, false), true, s) <==> w <= s
  {
    hide In;
    if w <= s {
      assert In(items, s[0..|w|]);
    }
  }

  lemma FoundLast(items: seq<Item>, w: Text, s: Text)
    requires forall u: Text :: In(items, u) <==> u == w
    ensures Found(RegExp(items, true), false, s) <==> |w| <= |s| && s[|s| - |w|..] == w
  {
    hide In;
    if |w| <= |s| && s[|s| - |w|..] == w {
      var i := |s| - |w|;
      assert s[i..|s|] == s[i..] && In(items, s[i..|s|]);
    }
    if Found(RegExp(items, true), false, s) {
      var i, j :| 0 <= i <= j <= |s| && j == |s| && In(items, s[i..j]);
      assert s[i..j] == s[i..] == w;
    }
  }

  // ----- one atom between two words, in the whole subject -----

  function Between(w: Text, middle: Text, v: Text): Text {
    ['^' as int] + w + middle + v + ['$' as int]
  }

  predicate Words(w: Text, v: Text) { Ordinary(w) && Ordinary(v) && |w| + |v| <= ROOM }

  lemma Middle(w: Text, item: Item, v: Text, s: Text)
    requires Words(w, v) && (item.One? || item.Star?) && AtomOk(item.a) && |ItemCode(item)| <= 8
    ensures var p := Between(w, ItemText(item), v);
            ParseText(p).Ok? && (Finds(p, s) <==> exists m: Text :: In([item], m) && s == w + m + v)
  {
    hide ParseText, In, ItemText, ItemCode, AtomOk, Found;
    var items := Chars(w) + [item] + Chars(v);
    var p := Between(w, ItemText(item), v);
    CharsText(w);
    CharsText(v);
    OneItem(item);
    ItemsConcat(Chars(w), [item]);
    ItemsConcat(Chars(w) + [item], Chars(v));
    FlatNested(items, 0);
    BetweenText(RegExp(items, true), w, ItemText(item), v);
    FromText(RegExp(items, true), true, p);
    FoundWhole(items, s);
    InMiddle(w, item, v, s);
  }

  lemma BetweenText(re: RegExp, w: Text, middle: Text, v: Text)
    requires re.dollar && ItemsText(re.items) == w + middle + v
    ensures Between(w, middle, v) == Render(re, true)
  {
  }

  /** A dot takes any one character. */
  lemma DotLaw(w: Text, v: Text, s: Text)
    requires Words(w, v)
    ensures Finds(Between(w, ['.' as int], v), s) <==> exists c: Byte :: s == w + [c] + v
  {
    hide ParseText, In;
    Middle(w, One(Any), v, s);
    forall m: Text ensures In([One(Any)], m) <==> |m| == 1 {
      InOne(Any, m);
    }
    if c: Byte :| s == w + [c] + v {
      assert In([One(Any)], [c]);
    }
    if m: Text :| In([One(Any)], m) && s == w + m + v {
      assert m == [m[0]];
    }
  }

  /** A dot and a star take anything. */
  lemma DotStarLaw(w: Text, v: Text, s: Text)
    requires Words(w, v)
    ensures Finds(Between(w, ['.' as int, '*' as int], v), s) <==> exists m: Text :: s == w + m + v
  {
    hide ParseText, In;
    assert ItemText(Star(Any)) == ['.' as int, '*' as int];
    Middle(w, Star(Any), v, s);
    forall m: Text ensures In([Star(Any)], m) {
      InStar(Any, m);
    }
  }

  /** A character and a star take any number of that character, none included. */
  lemma StarLaw(w: Text, x: Byte, v: Text, s: Text)
    requires Words(w, v) && Ordinary([x])
    ensures Finds(Between(w, [x, '*' as int], v), s)
       <==> exists m: Text :: (forall k :: 0 <= k < |m| ==> m[k] == x) && s == w + m + v
  {
    hide ParseText, In;
    assert [x][0] == x;
    assert ItemText(Star(Char(x))) == [x, '*' as int];
    Middle(w, Star(Char(x)), v, s);
    forall m: Text ensures In([Star(Char(x))], m) <==> forall k :: 0 <= k < |m| ==> m[k] == x {
      InStar(Char(x), m);
    }
  }

  /** A special character stands for itself behind a backslash. */
  lemma QuoteLaw(w: Text, c: Byte, v: Text, s: Text)
    requires Words(w, v) && !Ordinary([c])
    ensures Finds(Between(w, ['\\' as int, c], v), s) <==> s == w + [c] + v
  {
    hide ParseText, In;
    Middle(w, One(Char(c)), v, s);
    forall m: Text ensures In([One(Char(c))], m) <==> m == [c] {
      InOne(Char(c), m);
    }
  }

  // ----- classes, on their own -----

  function Singles(c: Text): (elems: seq<Elem>)
    ensures |elems| == |c| && forall k :: 0 <= k < |c| ==> elems[k] == Single(c[k])
  {
    seq(|c|, k requires 0 <= k < |c| => Single(c[k]))
  }

  lemma {:induction false} SinglesText(c: Text)
    ensures ClassText(Singles(c)) == c && Bytes(Singles(c)) == c
  {
    if c != [] {
      var n := |c| - 1;
      SinglesText(c[..n]);
      assert Singles(c) == Singles(c[..n]) + [Single(c[n])];
      OneMore(Singles(c[..n]), c[n]);
      assert c == c[..n] + [c[n]];
    }
  }

  lemma OneMore(elems: seq<Elem>, c: Byte)
    ensures ClassText(elems + [Single(c)]) == ClassText(elems) + [c] && Bytes(elems + [Single(c)]) == Bytes(elems) + [c]
  {
    assert (elems + [Single(c)])[..|elems|] == elems;
  }

  /** An atom alone is found where a character matches it. */
  lemma AtomFound(a: Atom, s: Text)
    ensures Found(RegExp([One(a)], false), false, s) <==> exists k :: 0 <= k < |s| && Matches(a, s[k])
  {
    hide In, Matches;
    if k :| 0 <= k < |s| && Matches(a, s[k]) {
      var j := k + 1;
      assert s[k..j] == [s[k]];
      InOne(a, s[k..j]);
      assert In([One(a)], s[k..j]);
    }
    if Found(RegExp([One(a)], false), false, s) {
      var i, j :| 0 <= i <= j <= |s| && In([One(a)], s[i..j]);
      InOne(a, s[i..j]);
      assert Matches(a, s[i]);
    }
  }

  lemma AtomRead(a: Atom, p: Text, s: Text)
    requires AtomOk(a) && p == AtomText(a) && |AtomCode(a, 0)| <= 500
    ensures ParseText(p) == Ok(RegExp([One(a)], false)) && !Anchored(p)
    ensures Finds(p, s) <==> exists k :: 0 <= k < |s| && Matches(a, s[k])
  {
    hide ParseText, Matches, Found, AtomText, AtomCode, AtomOk;
    var items := [One(a)];
    OneItem(One(a));
    FlatNested(items, 0);
    assert p == Render(RegExp(items, false), false);
    FromText(RegExp(items, false), false, p);
    AtomFound(a, s);
  }

  lemma InSingles(c: Text, x: Byte)
    ensures InClass(Singles(c), x) <==> x in c
  {
    var elems := Singles(c);
    if x in c {
      var k :| 0 <= k < |c| && c[k] == x;
      assert InElem(elems[k], x);
    }
    if InClass(elems, x) {
      var k :| 0 <= k < |elems| && InElem(elems[k], x);
      assert c[k] == x;
    }
  }

  lemma SinglesOk(c: Text, negated: bool)
    requires c != [] && (negated || c[0] != '^' as int)
    requires forall k :: 0 <= k < |c| ==> c[k] != ']' as int && c[k] != '-' as int
    ensures Listable(Singles(c), negated)
  {
    forall k | 0 <= k < |Singles(c)| ensures MemberOk(Singles(c), negated, k) {
    }
  }

  /** Characters in brackets match one of them; behind ^, one that is not among them. */
  lemma ClassLaw(c: Text, s: Text)
    requires c != [] && |c| <= ROOM && forall k :: 0 <= k < |c| ==> c[k] != ']' as int && c[k] != '-' as int
    ensures c[0] != '^' as int ==>
              (Finds(['[' as int] + c + [']' as int], s) <==> exists k :: 0 <= k < |s| && s[k] in c)
    ensures Finds(['[' as int, '^' as int] + c + [']' as int], s) <==> exists k :: 0 <= k < |s| && s[k] !in c
  {
    if c[0] != '^' as int {
      SinglesRead(c, false, ['[' as int] + c + [']' as int], s);
    }
    SinglesRead(c, true, ['[' as int, '^' as int] + c + [']' as int], s);
    hide Finds;
  }

  lemma SinglesRead(c: Text, negated: bool, p: Text, s: Text)
    requires c != [] && |c| <= ROOM && (negated || c[0] != '^' as int)
    requires forall k :: 0 <= k < |c| ==> c[k] != ']' as int && c[k] != '-' as int
    requires p == ['[' as int] + (if negated then ['^' as int] else []) + c + [']' as int]
    ensures Finds(p, s) <==> exists k :: 0 <= k < |s| && (s[k] in c) != negated
  {
    SinglesText(c);
    SinglesOk(c, negated);
    forall x: Byte ensures InClass(Singles(c), x) <==> x in c {
      InSingles(c, x);
    }
    hide Finds, InClass, Bytes, ClassText, Listable;
    AtomRead(Class(Singles(c), negated), p, s);
  }

  /** Two characters with a - between them match them and all that lie between. */
  lemma RangeLaw(lo: Byte, hi: Byte, s: Text)
    requires lo != '^' as int && hi != ']' as int
    ensures Finds(['[' as int, lo, '-' as int, hi, ']' as int], s)
       <==> exists k :: 0 <= k < |s| && (s[k] == lo || s[k] == hi || lo <= s[k] <= hi)
  {
    hide ParseText, Found, Bytes, ClassText;
    var elems := [Single(lo), Upto(lo, hi)];
    RangeText(lo, hi);
    assert Listable(elems, false) by {
      assert MemberOk(elems, false, 0) && MemberOk(elems, false, 1);
    }
    forall x: Byte ensures InClass(elems, x) <==> x == lo || x == hi || lo <= x <= hi {
      assert InElem(elems[0], x) <==> x == lo;
      assert InElem(elems[1], x) <==> lo <= x <= hi || x == hi;
    }
    hide InClass;
    AtomRead(Class(elems, false), ['[' as int, lo, '-' as int, hi, ']' as int], s);
  }

  lemma RangeText(lo: Byte, hi: Byte)
    ensures var elems := [Single(lo), Upto(lo, hi)];
            ClassText(elems) == [lo, '-' as int, hi] && |Bytes(elems)| <= 257
  {
    var elems := [Single(lo), Upto(lo, hi)];
    assert elems[..1] == [Single(lo)] && [Single(lo)][..0] == [];
    assert ClassText([Single(lo)]) == [lo] && Bytes([Single(lo)]) == [lo];
    AboveLength(lo, hi);
  }

  lemma {:induction false} AboveLength(lo: Byte, hi: Byte)
    ensures |Above(lo, hi)| == if lo < hi then hi - lo else 0
    decreases hi - lo
  {
    if lo < hi {
      AboveLength(lo + 1, hi);
    }
  }

  // ----- groups -----

  lemma {:induction false} FlatThen(items: seq<Item>, rest: seq<Item>, num: nat, stack: seq<nat>)
    requires Flat(items) && Nested(rest, num, stack)
    ensures Nested(items + rest, num, stack)
  {
    hide AtomOk;
    if items == [] {
      assert items + rest == rest;
    } else {
      assert (items + rest)[1..] == items[1..] + rest && (items + rest)[0] == items[0];
      FlatThen(items[1..], rest, num, stack);
    }
  }

  function Group(w: Text, v: Text): seq<Item> { [Open(0)] + (Chars(w) + ([Close(0)] + Chars(v))) }

  lemma GroupNested(w: Text, v: Text)
    requires Words(w, v)
    ensures Nested(Group(w, v), 0, [])
  {
    hide Ordinary;
    var tail := [Close(0)] + Chars(v);
    CharsText(w);
    CharsText(v);
    hide Chars;
    FlatNested(Chars(v), 1);
    assert tail[1..] == Chars(v) && [0][..0] == [];
    assert Nested(tail, 1, [0]);
    FlatThen(Chars(w), tail, 1, [0]);
    assert Group(w, v)[1..] == Chars(w) + tail && [] + [0] == [0];
  }

  lemma GroupText(w: Text, v: Text)
    requires Words(w, v)
    ensures ItemsText(Group(w, v)) == ['\\' as int, '(' as int] + w + ['\\' as int, ')' as int] + v
    ensures |Code(Group(w, v))| == 2 * |w| + 2 * |v| + 4
  {
    hide Ordinary;
    CharsText(w);
    CharsText(v);
    hide Chars;
    OneItem(Open(0));
    OneItem(Close(0));
    ItemsConcat([Close(0)], Chars(v));
    ItemsConcat(Chars(w), [Close(0)] + Chars(v));
    ItemsConcat([Open(0)], Chars(w) + ([Close(0)] + Chars(v)));
  }

  /** The closing bracket and what follows. */
  lemma InTail(v: Text, x: Text)
    ensures In([Close(0)] + Chars(v), x) <==> x == v
  {
    assert ([Close(0)] + Chars(v))[1..] == Chars(v);
    InChars(v, x);
  }

  lemma InGroup(w: Text, v: Text, u: Text)
    ensures In(Group(w, v), u) <==> u == w + v
  {
    var tail := [Close(0)] + Chars(v);
    assert Group(w, v)[1..] == Chars(w) + tail;
    assert In(Group(w, v), u) <==> In(Chars(w) + tail, u);
    hide Chars, In;
    if In(Chars(w) + tail, u) {
      var k := SplitsAt(Chars(w), tail, u);
      InChars(w, u[..k]);
      InTail(v, u[k..]);
      assert u == u[..k] + u[k..];
    }
    if u == w + v {
      InChars(w, u[..|w|]);
      InTail(v, u[|w|..]);
      assert u[..|w|] == w && u[|w|..] == v;
      Joins(Chars(w), tail, u, |w|);
    }
  }

  function Bracket(w: Text): Text { ['\\' as int, '(' as int] + w + ['\\' as int, ')' as int] }

  lemma GroupRead(w: Text, v: Text)
    requires Words(w, v)
    ensures ParseText(Between(Bracket(w), [], v)) == Ok(RegExp(Group(w, v), true)) && Anchored(Between(Bracket(w), [], v))
  {
    GroupNested(w, v);
    GroupText(w, v);
    hide ParseText, Group, Words, Between, Nested, ItemsText, Code, Render;
    assert Bracket(w) + [] + v == Bracket(w) + v;
    BetweenText(RegExp(Group(w, v), true), Bracket(w), [], v);
    FromText(RegExp(Group(w, v), true), true, Between(Bracket(w), [], v));
  }

  /** Brackets of a group match nothing themselves. */
  lemma GroupLaw(w: Text, v: Text, s: Text)
    requires Words(w, v)
    ensures Finds(Between(['\\' as int, '(' as int] + w + ['\\' as int, ')' as int], [], v), s) <==> s == w + v
  {
    hide ParseText, Found, In, Group, Words, Between;
    GroupRead(w, v);
    FoundWhole(Group(w, v), s);
    InGroup(w, v, s);
  }

  // ----- short texts that are no plain reading of their items -----

  /** Any character but a bracket or a digit from 1 to 9 stands for itself behind a backslash,
      and a star where there is nothing to repeat. */
  lemma LoneLaw(c: Byte, s: Text)
    ensures c != '(' as int && c != ')' as int && !('1' as int <= c <= '9' as int) ==>
              (Finds(['\\' as int, c], s) <==> exists k :: 0 <= k < |s| && s[k] == c)
    ensures Finds(['*' as int], s) <==> exists k :: 0 <= k < |s| && s[k] == '*' as int
  {
    if c != '(' as int && c != ')' as int && !('1' as int <= c <= '9' as int) {
      QuotedRead(c);
      AtomFound(Char(c), s);
    }
    StarAlone();
    AtomFound(Char('*' as int), s);
  }

  lemma QuotedRead(c: Byte)
    requires c != '(' as int && c != ')' as int && !('1' as int <= c <= '9' as int)
    ensures ParseText(['\\' as int, c]) == Ok(RegExp([One(Char(c))], false))
  {
    hide Parse, WithStars;
    var t := ['\\' as int, c];
    ParseEscape(t, 0, 0, [], 0);
    StarsRead(One(Char(c)), Star(Char(c)), t, 2, 0, [], 2, false);
    ParseEnd(t, 0, [], 2);
    assert [One(Char(c))] + [] == [One(Char(c))];
  }

  lemma StarAlone()
    ensures ParseText(['*' as int]) == Ok(RegExp([One(Char('*' as int))], false))
  {
    hide Parse, WithStars;
    var t := ['*' as int];
    ParsePlain(t, 0, 0, [], 0);
    ParseEnd(t, 0, [], 2);
    assert [One(Char('*' as int))] + [] == [One(Char('*' as int))];
  }

  /** Behind the first place a ^, and before the last a $, stands for itself. */
  lemma DelimiterLaw(s: Text)
    ensures Finds(['^' as int, '^' as int], s) <==> ['^' as int] <= s
    ensures Finds(['$' as int, '$' as int], s) <==> |s| > 0 && s[|s| - 1] == '$' as int
  {
    DelimitersRead();
    hide ParseText, In, Found;
    var hat, dollar := [One(Char('^' as int))], [One(Char('$' as int))];
    forall u: Text ensures (In(hat, u) <==> u == ['^' as int]) && (In(dollar, u) <==> u == ['$' as int]) {
      InOne(Char('^' as int), u);
      InOne(Char('$' as int), u);
    }
    FoundFirst(hat, ['^' as int], s);
    FoundLast(dollar, ['$' as int], s);
  }

  lemma DelimitersRead()
    ensures ParseText(['^' as int, '^' as int]) == Ok(RegExp([One(Char('^' as int))], false))
    ensures ParseText(['$' as int, '$' as int]) == Ok(RegExp([One(Char('$' as int))], true))
  {
    hide Parse, WithStars;
    var t, v := ['^' as int, '^' as int], ['$' as int, '$' as int];
    ParsePlain(t, 1, 0, [], 0);
    StarsRead(One(Char(t[1])), Star(Char(t[1])), t, 2, 0, [], 2, false);
    ParseEnd(t, 0, [], 2);
    ParsePlain(v, 0, 0, [], 0);
    StarsRead(One(Char(v[0])), Star(Char(v[0])), v, 1, 0, [], 2, false);
    ParsePlain(v, 1, 0, [], 2);
    assert [One(Char(t[1]))] + [] == [One(Char(t[1]))] && [One(Char(v[0]))] + [] == [One(Char(v[0]))];
  }

  /** Texts that are no pattern, and why. */
  lemma ErrorLaw()
    ensures ParseText(['\\' as int, '(' as int]) == Err(UnmatchedOpen)
    ensures ParseText(['\\' as int, ')' as int]) == Err(UnmatchedClose)
    ensures ParseText(['[' as int, 'a' as int]) == Err(MissingBracket)
  {
    hide Parse, WithStars;
    var open, close, cut := ['\\' as int, '(' as int], ['\\' as int, ')' as int], ['[' as int, 'a' as int];
    ParseEscape(open, 0, 0, [], 0);
    ParseEnd(open, 1, [0], 2);
    assert [] + [0] == [0];
    ParseEscape(close, 0, 0, [], 0);
    ParseBracket(cut, 0, 0, [], 0);
    MemberRead(cut, 1, [], 2);
    assert ParseClass(cut, 2, [Single('a' as int)], 3) == Err(MissingBracket);
    assert [] + [Single('a' as int)] == [Single('a' as int)];
  }

  function Opens(n: nat): Text {
    if n == 0 then [] else Opens(n - 1) + ['\\' as int, '(' as int]
  }

  lemma {:induction false} OpensAre(n: nat, i: nat)
    requires i < n
    ensures |Opens(n)| == 2 * n && Opens(n)[2 * i] == '\\' as int && Opens(n)[2 * i + 1] == '(' as int
  {
    if i < n - 1 {
      OpensAre(n - 1, i);
    } else if n > 1 {
      OpensAre(n - 1, 0);
    }
  }

  lemma {:induction false} OpensRead(n: nat, i: nat, stack: seq<nat>)
    requires i <= n <= 10 && i <= 9 && (stack == [] <==> i == 0)
    ensures |Opens(n)| == 2 * n
    ensures n > 0 ==> Parse(Opens(n), 2 * i, i, stack, 2 * i) == Err(if n == 10 then TooManyPairs else UnmatchedOpen)
    decreases n - i
  {
    hide Parse;
    if n > 0 {
      OpensAre(n, 0);
      if i < n {
        OpensAre(n, i);
        ParseEscape(Opens(n), 2 * i, i, stack, 2 * i);
        if i < 9 {
          OpensRead(n, i + 1, stack + [i]);
        }
      } else {
        ParseEnd(Opens(n), i, stack, 2 * i);
      }
    }
  }

  /** Up to nine pairs may be opened, if they are closed. */
  lemma NinePairs(n: nat)
    requires 1 <= n <= 10
    ensures ParseText(Opens(n)) == Err(if n == 10 then TooManyPairs else UnmatchedOpen)
  {
    hide Parse;
    OpensAre(n, 0);
    OpensRead(n, 0, []);
  }
}
