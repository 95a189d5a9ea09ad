/** Regular expressions as the documentation of re_comp describes them: what
    strings a pattern text denotes, and when a text is not a pattern. */
module Pattern {
  // Characters are signed 8-bit values; strings hold no NUL.
  type Byte = c: int | -128 <= c < 128
  type Text = seq<Byte>

  const NBRA: nat := 9       // most \( \) pairs

  /** Members of a bracketed class: a character, or the rest of a range whose
      low end is the member before it. */
  datatype Elem = Single(c: Byte) | Upto(lo: Byte, hi: Byte)

  datatype Atom = Char(c: Byte) | Any | Class(elems: seq<Elem>, negated: bool)

  datatype Item =
    | One(a: Atom)
    | Star(a: Atom)
    | Open(k: nat)
    | Close(k: nat)
    | Back(k: nat, star: bool)

  /** A parsed text; dollar: constrained to the right end. */
  datatype RegExp = RegExp(items: seq<Item>, dollar: bool)

  datatype Error = UnmatchedOpen | UnmatchedClose | TooManyPairs | MissingBracket | TooLong
                 | Truncated          // the text ends after \ or inside a range
  datatype Result<T> = Ok(value: T) | Err(error: Error)

  // ----- meaning -----

  predicate InElem(e: Elem, c: Byte) {
    match e
    case Single(d) => c == d
    case Upto(lo, hi) => lo <= c <= hi || c == hi
  }

  predicate InClass(elems: seq<Elem>, c: Byte) {
    exists k :: 0 <= k < |elems| && InElem(elems[k], c)
  }

  predicate Matches(a: Atom, c: Byte) {
    match a
    case Char(d) => c == d
    case Any => true
    case Class(elems, negated) => InClass(elems, c) != negated
  }

  predicate AllMatch(a: Atom, u: Text) {
    forall k :: 0 <= k < |u| ==> Matches(a, u[k])
  }

  /** u belongs to the language of the items. */
  ghost predicate In(items: seq<Item>, u: Text)
    decreases |items|
  {
    if items == [] then u == []
    else match items[0]
      case One(a) => u != [] && Matches(a, u[0]) && In(items[1..], u[1..])
      case Star(a) => exists k :: 0 <= k <= |u| && AllMatch(a, u[..k]) && In(items[1..], u[k..])
      case Open(_) => In(items[1..], u)
      case Close(_) => In(items[1..], u)
      case Back(_, _) => false           // back-references have no meaning here
  }

  /** The pattern matches the subject somewhere: some substring, from the left
      end if anchored and to the right end after a dollar, is in the language. */
  ghost predicate Found(re: RegExp, anchored: bool, s: Text) {
    exists i, j :: 0 <= i <= j <= |s| && (anchored ==> i == 0) && (re.dollar ==> j == |s|) && In(re.items, s[i..j])
  }

  // ----- pattern texts -----

  /** The class whose first member is at i, with what follows it. */
  datatype Bracketed = Bracketed(elems: seq<Elem>, next: nat)

  function Bytes(elems: seq<Elem>): (bs: Text) {
    if elems == [] then [] else Bytes(elems[..|elems| - 1]) + ElemBytes(elems[|elems| - 1])
  }

  /** A range is spelled out above its low end, and its high end comes again. */
  function ElemBytes(e: Elem): (bs: Text) {
    match e
    case Single(c) => [c]
    case Upto(lo, hi) => Above(lo, hi) + [hi]
  }

  function Above(lo: Byte, hi: Byte): (bs: Text)
    decreases hi - lo
  {
    if lo >= hi then [] else [lo + 1] + Above(lo + 1, hi)
  }

  function LastOf(e: Elem): Byte { if e.Single? then e.c else e.hi }

  const ESIZE: nat := 512

  /** len is the length of the compiled form so far. */
  function ParseClass(t: Text, i: nat, elems: seq<Elem>, len: nat): (r: Result<Bracketed>)
    ensures r.Ok? ==> i < r.value.next <= |t|
    decreases |t| - i
  {
    if i >= |t| then Err(MissingBracket)
    else if t[i] == ']' as int && elems != [] then Ok(Bracketed(elems, i + 1))
    else if t[i] == '-' as int && elems != [] then
      if i + 1 >= |t| then
        Err(if len + |ElemBytes(Upto(LastOf(elems[|elems| - 1]), 0))| >= ESIZE then TooLong else Truncated)
      else if t[i + 1] == ']' as int then Ok(Bracketed(elems + [Single('-' as int)], i + 2))
      else
        var e := Upto(LastOf(elems[|elems| - 1]), t[i + 1]);
        if len + |ElemBytes(e)| >= ESIZE then Err(TooLong)
        else ParseClass(t, i + 2, elems + [e], len + |ElemBytes(e)|)
    else if len + 1 >= ESIZE then Err(TooLong)
    else ParseClass(t, i + 1, elems + [Single(t[i])], len + 1)
  }

  /** Position after the stars at i. */
  function SkipStars(t: Text, i: nat): (j: nat)
    requires i <= |t|
    ensures i <= j <= |t|
    decreases |t| - i
  {
    if i < |t| && t[i] == '*' as int then SkipStars(t, i + 1) else i
  }

  predicate Negated(t: Text, i: nat) {
    i < |t| && t[i] == '^' as int
  }

  /** The class after a [ whose next character is at i. */
  function ClassAt(t: Text, i: nat, len: nat): (r: Result<Bracketed>)
    ensures r.Ok? ==> i < r.value.next <= |t|
  {
    ParseClass(t, if Negated(t, i) then i + 1 else i, [], len)
  }

  function Prepend(item: Item, r: Result<RegExp>): Result<RegExp> {
    if r.Ok? then Ok(r.value.(items := [item] + r.value.items)) else r
  }

  /** An atom or back-reference before i, with the stars that follow it. */
  function WithStars(plain: Item, starred: Item, t: Text, i: nat, num: nat, stack: seq<nat>, len: nat): Result<RegExp>
    requires i <= |t|
    decreases |t| - i, 1
  {
    if len >= ESIZE then Err(TooLong)
    else
      var j := SkipStars(t, i);
      Prepend(if j > i then starred else plain, Parse(t, j, num, stack, len))
  }

  /** The meaning of the text from i on: num pairs were opened, those in the
      stack are still open.  A star that follows nothing repeatable, at the start
      or after \( or \), stands for itself. */
  function Parse(t: Text, i: nat, num: nat, stack: seq<nat>, len: nat): Result<RegExp>
    requires i <= |t|
    decreases |t| - i, 0
  {
    if len >= ESIZE then Err(TooLong)
    else if i == |t| then (if stack == [] then Ok(RegExp([], false)) else Err(UnmatchedOpen))
    else
      var c := t[i];
      if c == '.' as int then WithStars(One(Any), Star(Any), t, i + 1, num, stack, len + 1)
      else if c == '*' as int then Prepend(One(Char(c)), Parse(t, i + 1, num, stack, len + 2))
      else if c == '$' as int && i + 1 == |t| then
        if len + 1 >= ESIZE then Err(TooLong)
        else if stack == [] then Ok(RegExp([], true)) else Err(UnmatchedOpen)
      else if c == '[' as int then
        var r := ClassAt(t, i + 1, len + 2);
        if r.Err? then Err(r.error)
        else
          var a := Class(r.value.elems, Negated(t, i + 1));
          WithStars(One(a), Star(a), t, r.value.next, num, stack, len + 2 + |Bytes(r.value.elems)|)
      else if c == '\\' as int then
        if i + 1 == |t| then Err(if len + 2 >= ESIZE then TooLong else Truncated)
        else
          var d := t[i + 1];
          if d == '(' as int then
            if num >= NBRA then Err(TooManyPairs)
            else Prepend(Open(num), Parse(t, i + 2, num + 1, stack + [num], len + 2))
          else if d == ')' as int then
            if stack == [] then Err(UnmatchedClose)
            else Prepend(Close(stack[|stack| - 1]), Parse(t, i + 2, num, stack[..|stack| - 1], len + 2))
          else if '1' as int <= d < '1' as int + NBRA then
            WithStars(Back(d - '1' as int, false), Back(d - '1' as int, true), t, i + 2, num, stack, len + 2)
          else WithStars(One(Char(d)), Star(Char(d)), t, i + 2, num, stack, len + 2)
      else WithStars(One(Char(c)), Star(Char(c)), t, i + 1, num, stack, len + 2)
  }

  /** A leading ^ constrains the match to the left end. */
  predicate Anchored(t: Text) {
    |t| > 0 && t[0] == '^' as int
  }

  function ParseText(t: Text): Result<RegExp> {
    Parse(t, if Anchored(t) then 1 else 0, 0, [], 0)
  }
}
