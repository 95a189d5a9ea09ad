/** How the compiled form of a pattern text grows, character by character. */
module RegexCompile {
  import opened Pattern
  import opened RegexCode

  /** The operator a star may still change: none, the last one, or the dollar. */
  datatype Pending =
    | Idle
    | After(plain: Item, starred: Item, seen: bool)
    | Dollar

  predicate Repeatable(p: Pending) {
    p.After? ==>
      || (p.plain.One? && p.starred == Star(p.plain.a))
      || (p.plain.Back? && !p.plain.star && p.starred == Back(p.plain.k, true))
  }

  function Current(p: Pending): Item
    requires p.After?
  {
    if p.seen then p.starred else p.plain
  }

  /** What is left to compile gives this, after the prefix. */
  function Rest(t: Text, i: nat, num: nat, stack: seq<nat>, len: nat, p: Pending): Result<RegExp>
    requires i <= |t|
  {
    match p
    case Idle => Parse(t, i, num, stack, len)
    case Dollar =>
      if len >= ESIZE then Err(TooLong) else if stack == [] then Ok(RegExp([], true)) else Err(UnmatchedOpen)
    case After(plain, starred, seen) =>
      if len >= ESIZE then Err(TooLong)
      else
        var j := SkipStars(t, i);
        Prepend(if seen || j > i then starred else plain, Parse(t, j, num, stack, len))
  }

  function PrependAll(prefix: seq<Item>, r: Result<RegExp>): Result<RegExp> {
    if r.Ok? then Ok(r.value.(items := prefix + r.value.items)) else r
  }

  function Written(prefix: seq<Item>, p: Pending): Text {
    match p
    case Idle => Code(prefix)
    case After(_, _, _) => Code(prefix) + ItemCode(Current(p))
    case Dollar => Code(prefix) + [CDOL]
  }

  /** The state of the compiler at position i: out is the code written so far. */
  ghost predicate State(t: Text, i: nat, out: Text, num: nat, stack: seq<nat>, prefix: seq<Item>, p: Pending) {
    && i <= |t| && Repeatable(p) && (p.Dollar? ==> i == |t|) && out == Written(prefix, p)
    && PrependAll(prefix, Rest(t, i, num, stack, |out|, p)) == ParseText(t)
  }

  /** lastep: the pending operator, or a bracket, or null (-1). */
  ghost predicate LastOp(out: Text, lastep: int, prefix: seq<Item>, p: Pending) {
    && -1 <= lastep < |out|
    && match p
       case Idle => lastep >= 0 ==> out[lastep] == CBRA || out[lastep] == CKET
       case After(_, _, _) => lastep == |Code(prefix)|
       case Dollar => true
  }

  lemma {:induction false} CodeMore(prefix: seq<Item>, item: Item)
    ensures Code(prefix + [item]) == Code(prefix) + ItemCode(item)
  {
    hide ItemCode;
    if prefix == [] {
      assert [item][1..] == [];
      assert prefix + [item] == [item];
    } else {
      assert (prefix + [item])[1..] == prefix[1..] + [item];
      CodeMore(prefix[1..], item);
    }
  }

  lemma PrependMore(prefix: seq<Item>, item: Item, r: Result<RegExp>)
    ensures PrependAll(prefix, Prepend(item, r)) == PrependAll(prefix + [item], r)
  {
    if r.Ok? {
      assert prefix + ([item] + r.value.items) == prefix + [item] + r.value.items;
    }
  }

  /** No star follows: the pending operator is final. */
  lemma Flush(t: Text, i: nat, out: Text, num: nat, stack: seq<nat>, prefix: seq<Item>, p: Pending)
    requires State(t, i, out, num, stack, prefix, p) && p.After? && |out| < ESIZE
    requires i == |t| || t[i] != '*' as int
    ensures State(t, i, out, num, stack, prefix + [Current(p)], Idle)
  {
    hide Parse, ItemCode;
    CodeMore(prefix, Current(p));
    PrependMore(prefix, Current(p), Parse(t, i, num, stack, |out|));
  }

  /** An item that no star can change. */
  lemma AddItem(t: Text, i: nat, out: Text, num: nat, stack: seq<nat>, prefix: seq<Item>,
                item: Item, i': nat, num': nat, stack': seq<nat>)
    requires State(t, i, out, num, stack, prefix, Idle) && i' <= |t|
    requires Parse(t, i, num, stack, |out|) == Prepend(item, Parse(t, i', num', stack', |out| + |ItemCode(item)|))
    ensures State(t, i', out + ItemCode(item), num', stack', prefix + [item], Idle)
  {
    hide Parse, ItemCode;
    CodeMore(prefix, item);
    PrependMore(prefix, item, Parse(t, i', num', stack', |out| + |ItemCode(item)|));
  }

  /** An item a star may follow. */
  lemma AddRepeatable(t: Text, i: nat, out: Text, num: nat, stack: seq<nat>, prefix: seq<Item>, i': nat, p: Pending)
    requires State(t, i, out, num, stack, prefix, Idle) && i' <= |t| && p.After? && !p.seen && Repeatable(p)
    requires Parse(t, i, num, stack, |out|) ==
             WithStars(p.plain, p.starred, t, i', num, stack, |out| + |ItemCode(p.plain)|)
    ensures State(t, i', out + ItemCode(p.plain), num, stack, prefix, p)
  {
    hide Parse, ItemCode;
  }

  /** A star on the pending operator: one flag, set in place. */
  lemma StarFlag(t: Text, i: nat, out: Text, num: nat, stack: seq<nat>, prefix: seq<Item>, p: Pending, lastep: int)
    requires State(t, i, out, num, stack, prefix, p) && p.After? && LastOp(out, lastep, prefix, p)
    requires i < |t| && t[i] == '*' as int && |out| < ESIZE
    ensures var op := out[lastep];
            && op != CBRA && op != CKET
            && (op % 2 == 0 ==> op + CSTAR < 128)
            && var out' := out[lastep := if op % 2 == 0 then op + CSTAR else op];
            && State(t, i + 1, out', num, stack, prefix, p.(seen := true))
            && LastOp(out', lastep, prefix, p.(seen := true))
  {
    hide Parse, Bytes;
    var a, b := ItemCode(p.plain), ItemCode(p.starred);
    assert out[lastep] == ItemCode(Current(p))[0];
    assert b == a[0 := a[0] + CSTAR] && a[0] % 2 == 0;
    var op := out[lastep];
    var out' := out[lastep := if op % 2 == 0 then op + CSTAR else op];
    assert out' == Code(prefix) + b;
  }

  lemma AddDollar(t: Text, i: nat, out: Text, num: nat, stack: seq<nat>, prefix: seq<Item>)
    requires State(t, i, out, num, stack, prefix, Idle) && i + 1 == |t|
    requires Parse(t, i, num, stack, |out|) == Rest(t, i + 1, num, stack, |out| + 1, Dollar)
    ensures State(t, i + 1, out + [CDOL], num, stack, prefix, Dollar)
  {
    hide Parse;
  }

  lemma CharCode(c: Byte)
    ensures ItemCode(One(Char(c))) == [CCHR, c] && ItemCode(One(Any)) == [CDOT]
  {
  }

  lemma ClassCode(a: Atom)
    requires a.Class?
    ensures ItemCode(One(a)) == [if a.negated then NCCL else CCL, Wrap(|Bytes(a.elems)| + 1)] + Bytes(a.elems)
  {
    hide Bytes;
  }

  lemma BracketCode(k: nat)
    ensures ItemCode(Open(k)) == [CBRA, Wrap(k)] && ItemCode(Close(k)) == [CKET, Wrap(k)]
    ensures ItemCode(Back(k, false)) == [CBACK, Wrap(k)]
  {
  }

  lemma NotDollar(t: Text, i: nat, out: Text, num: nat, stack: seq<nat>, prefix: seq<Item>, p: Pending)
    requires State(t, i, out, num, stack, prefix, p) && i < |t|
    ensures !p.Dollar?
  {
  }

  lemma StateLength(t: Text, i: nat, out: Text, num: nat, stack: seq<nat>, prefix: seq<Item>)
    requires State(t, i, out, num, stack, prefix, Idle)
    ensures |out| == |Code(prefix)|
  {
  }

  /** Inside the text there is an operator to repeat unless lastep says otherwise. */
  lemma PendingHere(t: Text, i: nat, out: Text, num: nat, stack: seq<nat>, prefix: seq<Item>, p: Pending, lastep: int)
    requires State(t, i, out, num, stack, prefix, p) && LastOp(out, lastep, prefix, p) && i < |t|
    ensures p.After? <==> !(lastep < 0 || out[lastep] == CBRA || out[lastep] == CKET)
    ensures p.Idle? || p.After?
  {
    hide Parse, Bytes;
    if p.After? {
      assert out[lastep] == ItemCode(Current(p))[0];
    }
  }

  // ----- one character of the text, by cases -----

  lemma ParseEnd(t: Text, num: nat, stack: seq<nat>, len: nat)
    requires len < ESIZE
    ensures Parse(t, |t|, num, stack, len) == if stack == [] then Ok(RegExp([], false)) else Err(UnmatchedOpen)
  {
  }

  lemma ParsePlain(t: Text, i: nat, num: nat, stack: seq<nat>, len: nat)
    requires len < ESIZE && i < |t| && t[i] != '[' as int && t[i] != '\\' as int
    ensures Parse(t, i, num, stack, len) ==
            if t[i] == '.' as int then WithStars(One(Any), Star(Any), t, i + 1, num, stack, len + 1)
            else if t[i] == '*' as int then Prepend(One(Char(t[i])), Parse(t, i + 1, num, stack, len + 2))
            else if t[i] == '$' as int && i + 1 == |t| then Rest(t, i + 1, num, stack, len + 1, Dollar)
            else WithStars(One(Char(t[i])), Star(Char(t[i])), t, i + 1, num, stack, len + 2)
  {
    hide WithStars, Prepend;
  }

  lemma ParseBracket(t: Text, i: nat, num: nat, stack: seq<nat>, len: nat)
    requires len < ESIZE && i < |t| && t[i] == '[' as int
    ensures var r := ClassAt(t, i + 1, len + 2);
            Parse(t, i, num, stack, len) ==
            if r.Err? then Err(r.error)
            else
              var a := Class(r.value.elems, Negated(t, i + 1));
              WithStars(One(a), Star(a), t, r.value.next, num, stack, len + 2 + |Bytes(r.value.elems)|)
  {
    hide WithStars, Prepend, ClassAt;
  }

  lemma ParseEscape(t: Text, i: nat, num: nat, stack: seq<nat>, len: nat)
    requires len < ESIZE && i < |t| && t[i] == '\\' as int
    ensures Parse(t, i, num, stack, len) ==
            if i + 1 == |t| then Err(if len + 2 >= ESIZE then TooLong else Truncated)
            else
              var d := t[i + 1];
              if d == '(' as int then
                if num >= NBRA then Err(TooManyPairs)
                else Prepend(Open(num), Parse(t, i + 2, num + 1, stack + [num], len + 2))
              else if d == ')' as int then
                if stack == [] then Err(UnmatchedClose)
                else Prepend(Close(stack[|stack| - 1]), Parse(t, i + 2, num, stack[..|stack| - 1], len + 2))
              else if '1' as int <= d < '1' as int + NBRA then
                WithStars(Back(d - '1' as int, false), Back(d - '1' as int, true), t, i + 2, num, stack, len + 2)
              else WithStars(One(Char(d)), Star(Char(d)), t, i + 2, num, stack, len + 2)
  {
    hide WithStars, Prepend;
  }

  lemma TooLongNow(t: Text, i: nat, out: Text, num: nat, stack: seq<nat>, prefix: seq<Item>, p: Pending)
    requires State(t, i, out, num, stack, prefix, p) && |out| >= ESIZE
    ensures ParseText(t) == Err(TooLong)
  {
  }

  lemma ErrorNow(t: Text, i: nat, out: Text, num: nat, stack: seq<nat>, prefix: seq<Item>, e: Error)
    requires State(t, i, out, num, stack, prefix, Idle) && Parse(t, i, num, stack, |out|) == Err(e)
    ensures ParseText(t) == Err(e)
  {
  }

  /** At the end of the text: the whole code, or an unmatched \\(. */
  lemma AllDone(t: Text, out: Text, num: nat, stack: seq<nat>, prefix: seq<Item>, p: Pending)
    requires State(t, |t|, out, num, stack, prefix, p) && |out| < ESIZE && !p.After?
    ensures stack != [] ==> ParseText(t) == Err(UnmatchedOpen)
    ensures stack == [] ==> ParseText(t).Ok? && out + [CEOF, 0] == FullCode(ParseText(t).value)
  {
    hide Parse;
    ParseEnd(t, num, stack, |out|);
    assert prefix + [] == prefix;
  }

  lemma Start(t: Text)
    requires t != []
    ensures State(t, if Anchored(t) then 1 else 0, [], 0, [], [], Idle)
    ensures LastOp([], -1, [], Idle)
  {
    hide Parse;
    var r := ParseText(t);
    if r.Ok? {
      assert [] + r.value.items == r.value.items;
    }
  }
}
