/** The receiver as it runs: the connection's state machine and the globals it shares with the bus. */
module Receiver {
  import Bus
  import opened Crc
  import opened CrcTable
  import opened Options
  import opened Protocol
  import opened Words

  /** The globals. */
  class Globals {
    var file: array?<Byte>
    var size: nat
    var pointer: nat
    var crc: nat
    var ready: bool

    constructor ()
      ensures View() == Shared(None, 0, 0, 0, false)
    {
      file, size, pointer, crc, ready := null, 0, 0, 0, false;
    }

    ghost function View(): Shared
      reads this, file
    {
      Shared(if file == null then None else Some(file[..]), size, pointer, crc, ready)
    }

    /** gerenciar_barramento_m68k, on registers 0 to 8. */
    method Access(reg: nat) returns (reply: Byte)
      requires reg <= 8 && Bus.Readable(View(), reg)
      modifies this
      ensures Bus.Reply(View(), reply) == old(Bus.Access(View(), reg))
      ensures file == old(file)
    {
      if ready && pointer >= size {
        pointer := 0;
        ready := false;
      }
      reply := 0;
      match reg {
        case 0 =>
          reply := file[pointer];
          pointer := pointer + 1;
        case 1 =>
          var code := if !ready then 0 else if pointer < size then 1 else 2;
          reply := code;
        case 2 => reply := size / 256 % 256;
        case 3 => reply := size % 256;
        case 4 => reply := crc / 16777216 % 256;
        case 5 => reply := crc / 65536 % 256;
        case 6 => reply := crc / 256 % 256;
        case 7 => reply := crc % 256;
        case _ => ready := false;
      }
    }
  }

  datatype Stage = AwaitHeader | AwaitData | Finished

  class Connection {
    var stage: Stage
    var total: nat
    var received: nat
    var record: array?<Byte>         // header and contents in one block

    constructor ()
      ensures Valid() && View() == Waiting && record == null
    {
      stage, total, received, record := AwaitHeader, 0, 0, null;
    }

    ghost predicate Valid()
      reads this
    {
      stage == AwaitData ==> record != null && record.Length == FILE_T + total < RANGE && received <= total
    }

    ghost function View(): Conn
      requires Valid()
      reads this, record
    {
      match stage
      case AwaitHeader => Waiting
      case AwaitData => Receiving(total, record[8..FILE_T], record[FILE_T..FILE_T + received])
      case Finished => Done
    }

    /** The header: allocates the record and fills in the name. */
    method TakeHeader(header: seq<Byte>)
      requires Valid() && stage == AwaitHeader && |header| == HEADER && OfLe32(header[..4]) + FILE_T < RANGE
      modifies this
      ensures Valid() && stage == AwaitData && fresh(record)
      ensures View() == Receiving(OfLe32(header[..4]), StrNCpy(header[4..], 12) + [0], [])
    {
      total := OfLe32(header[..4]);
      record := new Byte[FILE_T + total];
      CopyName(record, header[4..]);
      received := 0;
      stage := AwaitData;
    }

    /** Contents: copied behind what there is, and published when that is all. */
    method TakeData(g: Globals, table: array<nat>, bytes: seq<Byte>) returns (ghost published: bool)
      requires Valid() && stage == AwaitData && Accepts(View(), bytes) && Ready(table) && record != g.file
      modifies this, g, record
      ensures Valid() && record == old(record) && (stage == AwaitData ==> record != g.file)
      ensures var c := old(View());
              Step(View(), g.View(), published) == old(Take(c.total, c.name, c.got, g.View(), bytes))
    {
      hide Protocol.Published;
      ghost var c := View();
      if bytes != [] {
        Copy(record, FILE_T + received, bytes);
        received := received + |bytes|;
      }
      published := received >= total;
      assert record[8..FILE_T] == c.name && record[FILE_T..FILE_T + received] == c.got + bytes;
      if received >= total {
        stage := Finished;
        Publish(g, table, c.name, c.got + bytes);
      }
    }

    method Publish(g: Globals, table: array<nat>, ghost name: seq<Byte>, ghost contents: seq<Byte>)
      requires record != null && record.Length == FILE_T + total < RANGE && Ready(table)
      requires name == record[8..FILE_T] && contents == record[FILE_T..]
      modifies g, record
      ensures g.View() == Published(name, contents) && g.file == record
    {
      hide Body, Crc32, Ready, Record;
      var crc32 := FillRecord(record, table, name, contents);
      g.file := record;
      g.size := FILE_T + total;
      g.crc := crc32;
      g.pointer := 0;
      g.ready := true;
    }

    /** tcp_server_recv, on a segment in one pbuf. */
    method Receive(g: Globals, table: array<nat>, seg: seq<Byte>) returns (ghost published: bool)
      requires Valid() && Accepts(View(), seg) && Ready(table)
      requires stage == AwaitData ==> record != g.file
      modifies this, g, if stage == AwaitData then {record} else {}
      ensures Valid() && (stage == AwaitData ==> record != g.file && (record == old(record) || fresh(record)))
      ensures Step(View(), g.View(), published) == old(Protocol.Receive(View(), g.View(), seg))
    {
      hide Protocol.Take, Protocol.Published, StrNCpy;
      published := false;
      ReceiveIs(View(), g.View(), seg);
      var at := 0;
      if stage == AwaitHeader {
        if |seg| < HEADER {
          return;
        }
        TakeHeader(seg[..HEADER]);
        at := HEADER;
      }
      if stage == AwaitData {
        assert seg[at..] == if at == 0 then seg else seg[HEADER..];
        published := TakeData(g, table, seg[at..]);
      }
    }
  }

  /** The length, then the CRC over it and all that follows. */
  method FillRecord(a: array<Byte>, table: array<nat>, ghost name: seq<Byte>,
        ghost contents: seq<Byte>) returns (crc32: nat)
    requires FILE_T <= a.Length < RANGE && Ready(table) && a[8..FILE_T] == name && a[FILE_T..] == contents
    modifies a
    ensures a[..] == Record(name, contents) && crc32 == Crc32(Body(name, contents))
  {
    hide Body, Le32, Crc32, Ready;
    BodyPieces(a[..], name, contents);
    StoreLe32(a, 4, a.Length);
    assert a[4..4 + (a.Length - 4)] == a[..][4..];
    crc32 := Calculate(table, a, 4, a.Length - 4);
    assert a[4..] == Body(name, contents);
    StoreLe32(a, 0, crc32);
    assert a[..] == Le32(crc32) + Body(name, contents);
  }

  /** Storing the length turns the block, CRC aside, into the body of the record. */
  lemma BodyPieces(a: seq<Byte>, name: seq<Byte>, contents: seq<Byte>)
    requires FILE_T <= |a| < RANGE && a[8..FILE_T] == name && a[FILE_T..] == contents
    ensures (a[..4] + Le32(|a|) + a[8..])[4..] == Body(name, contents)
  {
    assert a[8..] == name + contents;
  }

  method Copy(a: array<Byte>, at: nat, bytes: seq<Byte>)
    requires at + |bytes| <= a.Length
    modifies a
    ensures a[..] == old(a[..at]) + bytes + old(a[at + |bytes|..])
  {
    for i := 0 to |bytes|
      invariant a[..at] == old(a[..at]) && a[at + |bytes|..] == old(a[at + |bytes|..])
      invariant forall j :: 0 <= j < i ==> a[at + j] == bytes[j]
    {
      a[at + i] := bytes[i];
    }
    assert a[at..at + |bytes|] == bytes;
    assert a[..] == a[..at] + a[at..at + |bytes|] + a[at + |bytes|..];
  }

  method StoreLe32(a: array<Byte>, at: nat, v: nat)
    requires at + 4 <= a.Length && v < RANGE
    modifies a
    ensures a[..] == old(a[..at]) + Le32(v) + old(a[at + 4..])
  {
    Copy(a, at, Le32(v));
  }

  /** strncpy of twelve characters into the name field, and a zero behind. */
  method CopyName(a: array<Byte>, src: seq<Byte>)
    requires a.Length >= FILE_T && |src| == 12
    modifies a
    ensures a[8..FILE_T] == StrNCpy(src, 12) + [0]
  {
    hide StrNCpy, Zeros, CopiedFrom;
    ghost var name := StrNCpy(src, 12);
    var ended := false;
    CopiedStart(src);
    for i := 0 to 12
      invariant a[8..8 + i] == name[..i] && name[i..] == CopiedFrom(src, i, ended)
    {
      CopiedNext(src, i, ended);
      ended := ended || src[i] == 0;
      a[8 + i] := if ended then 0 else src[i];
      NextOf(name, i, a[8 + i], CopiedFrom(src, i + 1, ended));
    }
    a[20] := 0;
    assert a[8..FILE_T] == name + [0];
  }

  lemma NextOf(s: seq<Byte>, i: nat, x: Byte, rest: seq<Byte>)
    requires i < |s| && s[i..] == [x] + rest
    ensures s[i] == x && s[i + 1..] == rest
  {
    assert s[i] == s[i..][0] && s[i + 1..] == s[i..][1..];
  }

  /** The rest of the copy, once `ended` says whether a zero was met. */
  function CopiedFrom(src: seq<Byte>, i: nat, ended: bool): (s: seq<Byte>)
    requires i <= |src|
    ensures |s| == |src| - i
  {
    if ended then Zeros(|src| - i) else StrNCpy(src[i..], |src| - i)
  }

  lemma CopiedStart(src: seq<Byte>)
    ensures CopiedFrom(src, 0, false) == StrNCpy(src, |src|)
  {
    assert src[0..] == src;
  }

  lemma CopiedNext(src: seq<Byte>, i: nat, ended: bool)
    requires i < |src|
    ensures var now := ended || src[i] == 0;
            CopiedFrom(src, i, ended) == [if now then 0 else src[i]] + CopiedFrom(src, i + 1, now)
  {
    assert src[i..][1..] == src[i + 1..];
  }

  lemma ReceiveIs(c: Conn, d: Shared, seg: seq<Byte>)
    requires Accepts(c, seg)
    ensures Protocol.Receive(c, d, seg) ==
            match c
            case Waiting =>
              if |seg| < HEADER then Step(Waiting, d, false)
              else Take(OfLe32(seg[..4]), StrNCpy(seg[4..HEADER], 12) + [0], [], d, seg[HEADER..])
            case Receiving(total, name, got) => Take(total, name, got, d, seg)
            case Done => Step(Done, d, false)
  {
  }
}
