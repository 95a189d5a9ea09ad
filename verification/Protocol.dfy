/** The file transfer as functions: what is sent, received, published and read back. */
module Protocol {
  import opened Crc
  import opened Options
  import opened Words

  const HEADER: nat := 16      // bytes before the file on the wire
  const FILE_T: nat := 21      // bytes before the contents in the published record
  const SPACE: Byte := 32

  // ----- the bytes -----

  /** A 32-bit number in memory, low byte first. */
  function Le32(n: nat): (bs: seq<Byte>)
    requires n < RANGE
    ensures |bs| == 4
  {
    [n % 256, n / 256 % 256, n / 65536 % 256, n / 16777216]
  }

  function OfLe32(bs: seq<Byte>): (n: nat)
    requires |bs| == 4
    ensures n < RANGE
  {
    var b0: int, b1: int, b2: int, b3: int := bs[0], bs[1], bs[2], bs[3];
    b0 + 256 * b1 + 65536 * b2 + 16777216 * b3
  }

  lemma Le32Back(n: nat)
    requires n < RANGE
    ensures OfLe32(Le32(n)) == n
  {
  }

  predicate IsName(name: seq<Byte>) { |name| <= 12 && 0 !in name }

  function Spaces(n: nat): (s: seq<Byte>)
    ensures |s| == n && 0 !in s
  {
    if n == 0 then [] else [SPACE] + Spaces(n - 1)
  }

  function Zeros(n: nat): (s: seq<Byte>)
    ensures |s| == n
  {
    if n == 0 then [] else [0] + Zeros(n - 1)
  }

  /** The name as it goes over the wire. */
  function Padded(name: seq<Byte>): (s: seq<Byte>)
    requires IsName(name)
    ensures |s| == 12 && 0 !in s
  {
    name + Spaces(12 - |name|)
  }

  function Header(size: nat, name: seq<Byte>): (h: seq<Byte>)
    requires size < RANGE && IsName(name)
    ensures |h| == HEADER
  {
    Le32(size) + Padded(name)
  }

  lemma {:induction false} SpaceAt(n: nat, j: nat)
    requires j < n
    ensures Spaces(n)[j] == 32
  {
    if j > 0 {
      SpaceAt(n - 1, j - 1);
    }
  }

  /** The header, byte by byte: four of the size, lowest first, and twelve of the name. */
  lemma HeaderLayout(size: nat, name: seq<Byte>, k: nat)
    requires size < RANGE && IsName(name) && k < 16
    ensures |Header(size, name)| == 16
    ensures var h := Header(size, name);
            && h[0] == size % 256 && h[1] == size / 256 % 256 && h[2] == size / 65536 % 256 && h[3] == size / 16777216
            && (k >= 4 ==> h[k] == if k - 4 < |name| then name[k - 4] else 32)
  {
    if k - 4 >= |name| {
      SpaceAt(12 - |name|, k - 4 - |name|);
    }
  }

  /** strncpy: up to the first zero, then zeros. */
  function StrNCpy(src: seq<Byte>, n: nat): (s: seq<Byte>)
    ensures |s| == n
    decreases n
  {
    if n == 0 then [] else if src == [] || src[0] == 0 then Zeros(n) else [src[0]] + StrNCpy(src[1..], n - 1)
  }

  lemma {:induction false} StrNCpyName(src: seq<Byte>, n: nat)
    requires |src| >= n && 0 !in src[..n]
    ensures StrNCpy(src, n) == src[..n]
    decreases n
  {
    if n > 0 {
      assert src[0] in src[..n];
      assert src[1..][..n - 1] == src[..n][1..];
      StrNCpyName(src[1..], n - 1);
    }
  }

  /** What the CRC of a record covers: everything after the CRC. */
  function Body(name: seq<Byte>, contents: seq<Byte>): (b: seq<Byte>)
    requires |name| == 13 && |contents| + FILE_T < RANGE
    ensures |b| == |contents| + FILE_T - 4
  {
    Le32(FILE_T + |contents|) + name + contents
  }

  function Record(name: seq<Byte>, contents: seq<Byte>): (r: seq<Byte>)
    requires |name| == 13 && |contents| + FILE_T < RANGE
    ensures |r| == |contents| + FILE_T
  {
    Le32(Crc32(Body(name, contents))) + Body(name, contents)
  }

  /** The record, byte by byte: CRC and length, lowest bytes first, name and contents. */
  lemma RecordLayout(name: seq<Byte>, contents: seq<Byte>)
    requires |name| == 13 && |contents| + 21 < RANGE
    ensures var r, n, c := Record(name, contents), |contents| + 21, Crc32(Record(name, contents)[4..]);
            && |r| == n && r[8..21] == name && r[21..] == contents
            && r[0] == c % 256 && r[1] == c / 256 % 256 && r[2] == c / 65536 % 256 && r[3] == c / 16777216
            && r[4] == n % 256 && r[5] == n / 256 % 256 && r[6] == n / 65536 % 256 && r[7] == n / 16777216
  {
    hide Crc32;
    var b := Body(name, contents);
    assert Record(name, contents)[4..] == b;
    assert b[4..17] == name && b[17..] == contents;
    assert Record(name, contents)[8..21] == b[4..17] && Record(name, contents)[21..] == b[17..];
  }

  // ----- the receiver -----

  /** What the network side and the bus side share. */
  datatype Shared = Shared(file: Option<seq<Byte>>, size: nat, pointer: nat, crc: nat, ready: bool)

  datatype Conn =
    | Waiting                                                        // for the header
    | Receiving(total: nat, name: seq<Byte>, got: seq<Byte>)
    | Done

  /** A segment brings no more than the header announced. */
  predicate Accepts(c: Conn, seg: seq<Byte>) {
    match c
    case Waiting =>
      |seg| >= HEADER ==> OfLe32(seg[..4]) + FILE_T < RANGE && |seg| - HEADER <= OfLe32(seg[..4])
    case Receiving(total, name, got) =>
      |name| == 13 && total + FILE_T < RANGE && |got| + |seg| <= total
    case Done => true
  }

  function Published(name: seq<Byte>, contents: seq<Byte>): Shared
    requires |name| == 13 && |contents| + FILE_T < RANGE
  {
    var r := Record(name, contents);
    Shared(Some(r), |r|, 0, Crc32(Body(name, contents)), true)
  }

  datatype Step = Step(c: Conn, d: Shared, published: bool)

  function Take(total: nat, name: seq<Byte>, got: seq<Byte>, d: Shared, bytes: seq<Byte>): Step
    requires Accepts(Receiving(total, name, got), bytes)
  {
    if |got + bytes| >= total then Step(Done, Published(name, got + bytes), true)
    else Step(Receiving(total, name, got + bytes), d, false)
  }

  /** tcp_server_recv, on one segment. */
  function Receive(c: Conn, d: Shared, seg: seq<Byte>): Step
    requires Accepts(c, seg)
  {
    match c
    case Waiting =>
      if |seg| < HEADER then Step(Waiting, d, false)
      else Take(OfLe32(seg[..4]), StrNCpy(seg[4..HEADER], 12) + [0], [], d, seg[HEADER..])
    case Receiving(total, name, got) => Take(total, name, got, d, seg)
    case Done => Step(Done, d, false)
  }

  ghost predicate AllAccepted(c: Conn, d: Shared, segs: seq<seq<Byte>>)
    decreases |segs|
  {
    segs != [] ==> Accepts(c, segs[0]) && var s := Receive(c, d, segs[0]); AllAccepted(s.c, s.d, segs[1..])
  }

  datatype Outcome = Outcome(c: Conn, d: Shared, times: nat)

  /** All segments of a connection, and how often something was published. */
  ghost function Run(c: Conn, d: Shared, segs: seq<seq<Byte>>): Outcome
    requires AllAccepted(c, d, segs)
    decreases |segs|
  {
    if segs == [] then Outcome(c, d, 0)
    else
      var s := Receive(c, d, segs[0]);
      var o := Run(s.c, s.d, segs[1..]);
      if s.published then o.(times := o.times + 1) else o
  }

  function Concat(segs: seq<seq<Byte>>): seq<Byte> {
    if segs == [] then [] else segs[0] + Concat(segs[1..])
  }

  lemma {:induction false} RunDone(d: Shared, segs: seq<seq<Byte>>)
    ensures AllAccepted(Done, d, segs) && Run(Done, d, segs) == Outcome(Done, d, 0)
    decreases |segs|
  {
    if segs != [] {
      RunDone(d, segs[1..]);
    }
  }

  lemma {:induction false} RunReceiving(total: nat, name: seq<Byte>, got: seq<Byte>, d: Shared, segs: seq<seq<Byte>>)
    requires |name| == 13 && total + FILE_T < RANGE && |got| < total && |got| + |Concat(segs)| == total
    ensures AllAccepted(Receiving(total, name, got), d, segs)
    ensures Run(Receiving(total, name, got), d, segs) == Outcome(Done, Published(name, got + Concat(segs)), 1)
    decreases |segs|, 0
  {
    hide Published;
    assert segs != [];
    RunTaken(total, name, got, d, segs[0], segs[1..]);
    assert got + Concat(segs) == got + segs[0] + Concat(segs[1..]);
    assert [segs[0]] + segs[1..] == segs;
  }

  /** One segment of contents, then the rest. */
  lemma {:induction false} RunTaken(total: nat, name: seq<Byte>, got: seq<Byte>, d: Shared, bytes: seq<Byte>,
        segs: seq<seq<Byte>>)
    requires |name| == 13 && total + FILE_T < RANGE && |got| + |bytes| + |Concat(segs)| == total
    ensures Accepts(Receiving(total, name, got), bytes)
    ensures var s := Take(total, name, got, d, bytes);
            && AllAccepted(s.c, s.d, segs)
            && Run(s.c, s.d, segs) == Outcome(Done, Published(name, got + bytes + Concat(segs)), if s.published then 0 else 1)
    decreases |segs|, 1
  {
    hide Published, Concat;
    if |got + bytes| >= total {
      assert Concat(segs) == [];
      assert got + bytes + [] == got + bytes;
      RunDone(Published(name, got + bytes), segs);
    } else {
      RunReceiving(total, name, got + bytes, d, segs);
    }
  }

  /** Whatever the segmentation, the record is published, once, with the file in it. */
  lemma Transferred(name: seq<Byte>, contents: seq<Byte>, segs: seq<seq<Byte>>, d: Shared)
    requires IsName(name) && |contents| + FILE_T < RANGE
    requires segs != [] && |segs[0]| >= HEADER && Concat(segs) == Header(|contents|, name) + contents
    ensures AllAccepted(Waiting, d, segs)
    ensures Run(Waiting, d, segs) == Outcome(Done, Published(Padded(name) + [0], contents), 1)
  {
    hide Published, Concat;
    var first, rest := segs[0], segs[1..];
    ConcatFirst(segs);
    var h := Header(|contents|, name);
    assert first[..HEADER] == (first + Concat(rest))[..HEADER] == h;
    assert first[..4] == first[..HEADER][..4] == Le32(|contents|);
    assert first[4..HEADER] == first[..HEADER][4..] == Padded(name);
    assert contents == (first + Concat(rest))[HEADER..] == first[HEADER..] + Concat(rest);
    Le32Back(|contents|);
    StrNCpyName(Padded(name), 12);
    assert Padded(name)[..12] == Padded(name);
    RunTaken(|contents|, Padded(name) + [0], [], d, first[HEADER..], rest);
    assert [] + first[HEADER..] + Concat(rest) == contents;
  }

  lemma ConcatFirst(segs: seq<seq<Byte>>)
    requires segs != []
    ensures Concat(segs) == segs[0] + Concat(segs[1..])
  {
  }
}
