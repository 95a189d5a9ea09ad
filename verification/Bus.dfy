/** The registers through which the 68000 reads a published file. */
module Bus {
  import opened Crc
  import opened Options
  import opened Protocol
  import opened Words

  datatype Reply = Reply(d: Shared, byte: Byte)

  /** Before any register is looked at: a file read to its end is withdrawn. */
  function Settle(d: Shared): Shared {
    if d.ready && d.pointer >= d.size then d.(pointer := 0, ready := false) else d
  }

  /** The data register is read within a file. */
  predicate Readable(d: Shared, reg: nat) {
    reg == 0 ==> d.file.Some? && Settle(d).pointer < |d.file.value|
  }

  /** One access, to registers 0 to 8. */
  function Access(d: Shared, reg: nat): Reply
    requires reg <= 8 && Readable(d, reg)
  {
    var s := Settle(d);
    match reg
    case 0 => Reply(s.(pointer := s.pointer + 1), s.file.value[s.pointer])
    case 1 => Reply(s, if !s.ready then 0 else if s.pointer < s.size then 1 else 2)
    case 2 => Reply(s, s.size / 256 % 256)
    case 3 => Reply(s, s.size % 256)
    case 4 => Reply(s, s.crc / 16777216 % 256)
    case 5 => Reply(s, s.crc / 65536 % 256)
    case 6 => Reply(s, s.crc / 256 % 256)
    case 7 => Reply(s, s.crc % 256)
    case _ => Reply(s.(ready := false), 0)
  }

  /** The status register says whether there is something left to read; it
      never gives the end-of-file code, because the file is withdrawn first. */
  lemma Status(d: Shared)
    ensures Access(d, 1).byte == if d.ready && d.pointer < d.size then 1 else 0
  {
  }

  /** Register 8 withdraws the file. */
  lemma Withdrawn(d: Shared)
    ensures Access(Access(d, 8).d, 1).byte == 0
  {
  }

  // ----- reading a file back -----

  /** How many of the accesses are to the data register. */
  function DataReads(regs: seq<nat>): nat
    decreases |regs|
  {
    if regs == [] then 0 else (if regs[0] == 0 then 1 else 0) + DataReads(regs[1..])
  }

  predicate AllReadable(d: Shared, regs: seq<nat>)
    decreases |regs|
  {
    regs != [] ==> regs[0] <= 7 && Readable(d, regs[0]) && AllReadable(Access(d, regs[0]).d, regs[1..])
  }

  function Replies(d: Shared, regs: seq<nat>): (bs: seq<Byte>)
    requires AllReadable(d, regs)
    ensures |bs| == |regs|
    decreases |regs|
  {
    if regs == [] then [] else [Access(d, regs[0]).byte] + Replies(Access(d, regs[0]).d, regs[1..])
  }

  /** The replies of the data register, in order. */
  function DataOf(regs: seq<nat>, bs: seq<Byte>): seq<Byte>
    requires |regs| == |bs|
    decreases |regs|
  {
    if regs == [] then []
    else (if regs[0] == 0 then [bs[0]] else []) + DataOf(regs[1..], bs[1..])
  }

  /** A file of which k bytes have been read. */
  ghost predicate Read(r: seq<Byte>, crc: nat, d: Shared, k: nat) {
    && k <= |r| && d.file == Some(r) && d.size == |r| > 0 && d.crc == crc
    && if d.ready then d.pointer == k else k == |r| && d.pointer == 0
  }

  /** What register reg shows of a file, of which k bytes have been read. */
  function Shown(r: seq<Byte>, crc: nat, k: nat, reg: nat): Byte
    requires reg <= 7 && (reg == 0 ==> k < |r|)
  {
    match reg
    case 0 => r[k]
    case 1 => if k < |r| then 1 else 0
    case 2 => |r| / 256 % 256
    case 3 => |r| % 256
    case 4 => crc / 16777216 % 256
    case 5 => crc / 65536 % 256
    case 6 => crc / 256 % 256
    case _ => crc % 256
  }

  lemma OneAccess(r: seq<Byte>, crc: nat, d: Shared, k: nat, reg: nat)
    requires Read(r, crc, d, k) && reg <= 7 && (reg == 0 ==> k < |r|)
    ensures Readable(d, reg) && Access(d, reg).byte == Shown(r, crc, k, reg)
    ensures Read(r, crc, Access(d, reg).d, if reg == 0 then k + 1 else k)
  {
  }

  /** Registers 0 to 7 in any order: the data register gives the file byte by
      byte, and the others never disturb it. */
  lemma {:induction false} ReadBack(r: seq<Byte>, crc: nat, d: Shared, k: nat, regs: seq<nat>)
    requires Read(r, crc, d, k) && (forall j :: 0 <= j < |regs| ==> regs[j] <= 7) && k + DataReads(regs) <= |r|
    ensures AllReadable(d, regs)
    ensures DataOf(regs, Replies(d, regs)) == r[k..k + DataReads(regs)]
    decreases |regs|
  {
    if regs != [] {
      hide Read, Access, Shown;
      var k' := if regs[0] == 0 then k + 1 else k;
      var next := Access(d, regs[0]).d;
      OneAccess(r, crc, d, k, regs[0]);
      ReadBack(r, crc, next, k', regs[1..]);
      DataFirst(d, regs);
      if regs[0] == 0 {
        ShownData(r, crc, k);
        assert r[k..k + DataReads(regs)] == [r[k]] + r[k + 1..k + DataReads(regs)];
      }
    }
  }

  lemma DataFirst(d: Shared, regs: seq<nat>)
    requires regs != [] && AllReadable(d, regs)
    ensures var a := Access(d, regs[0]);
            DataOf(regs, Replies(d, regs)) == (if regs[0] == 0 then [a.byte] else []) + DataOf(regs[1..], Replies(a.d, regs[1..]))
  {
    hide Access;
    assert Replies(d, regs)[1..] == Replies(Access(d, regs[0]).d, regs[1..]);
  }

  lemma ShownData(r: seq<Byte>, crc: nat, k: nat)
    requires k < |r|
    ensures Shown(r, crc, k, 0) == r[k]
  {
  }

  /** And each reply is what the register shows by then. */
  lemma {:induction false} EachReply(r: seq<Byte>, crc: nat, d: Shared, k: nat, regs: seq<nat>, j: nat)
    requires Read(r, crc, d, k) && (forall i :: 0 <= i < |regs| ==> regs[i] <= 7) && k + DataReads(regs) <= |r|
    requires j < |regs| && AllReadable(d, regs)
    ensures regs[j] == 0 ==> k + DataReads(regs[..j]) < |r|
    ensures Replies(d, regs)[j] == Shown(r, crc, k + DataReads(regs[..j]), regs[j])
    decreases |regs|
  {
    hide Read, Access, Shown;
    OneAccess(r, crc, d, k, regs[0]);
    if j > 0 {
      assert regs[..j][1..] == regs[1..][..j - 1];
      EachReply(r, crc, Access(d, regs[0]).d, if regs[0] == 0 then k + 1 else k, regs[1..], j - 1);
    }
  }

  /** What a register shows of the record r of which k bytes have been read: 1 while some
      are left, then 0; the size, high byte first; and the CRC, high byte first. */
  predicate Tells(reg: nat, reply: Byte, r: seq<Byte>, k: nat)
    requires |r| >= 4
  {
    var crc := Crc32(r[4..]);
    && (reg == 1 ==> reply == if k < |r| then 1 else 0)
    && (reg == 2 ==> reply == |r| / 256 % 256) && (reg == 3 ==> reply == |r| % 256)
    && (reg == 4 ==> reply == crc / 16777216) && (reg == 5 ==> reply == crc / 65536 % 256)
    && (reg == 6 ==> reply == crc / 256 % 256) && (reg == 7 ==> reply == crc % 256)
  }

  lemma ShownTells(r: seq<Byte>, k: nat, reg: nat)
    requires |r| >= 4 && 1 <= reg <= 7
    ensures Tells(reg, Shown(r, Crc32(r[4..]), k, reg), r, k)
  {
    hide Crc32;
  }

  /** From file to file: however the transfer is cut up, and whatever is read in
      between, the 68000 gets back the record of the file it was sent, and its other
      registers tell its size, the CRC of all of it but the CRC field, and whether
      there is more. */
  lemma EndToEnd(name: seq<Byte>, contents: seq<Byte>, segs: seq<seq<Byte>>, d: Shared, regs: seq<nat>)
    requires IsName(name) && |contents| + FILE_T < RANGE
    requires segs != [] && |segs[0]| >= HEADER && Concat(segs) == Header(|contents|, name) + contents
    requires (forall j :: 0 <= j < |regs| ==> regs[j] <= 7) && DataReads(regs) <= |contents| + FILE_T
    ensures AllAccepted(Waiting, d, segs)
    ensures var o := Run(Waiting, d, segs);
            var r := Record(Padded(name) + [0], contents);
            && o.times == 1 && AllReadable(o.d, regs)
            && DataOf(regs, Replies(o.d, regs)) == r[..DataReads(regs)]
            && (forall j :: 0 <= j < |regs| ==> Tells(regs[j], Replies(o.d, regs)[j], r, DataReads(regs[..j])))
  {
    hide Record, Concat, Header, Padded, Run, AllAccepted, Published, AllReadable, Replies, DataOf, Crc32, Tells;
    Transferred(name, contents, segs, d);
    ReadsPublished(Padded(name) + [0], contents, regs);
  }

  lemma ReadsPublished(name: seq<Byte>, contents: seq<Byte>, regs: seq<nat>)
    requires |name| == 13 && |contents| + FILE_T < RANGE
    requires (forall j :: 0 <= j < |regs| ==> regs[j] <= 7) && DataReads(regs) <= |contents| + FILE_T
    ensures var d := Published(name, contents);
            var r := Record(name, contents);
            && AllReadable(d, regs)
            && DataOf(regs, Replies(d, regs)) == r[..DataReads(regs)]
            && (forall j :: 0 <= j < |regs| ==> Tells(regs[j], Replies(d, regs)[j], r, DataReads(regs[..j])))
  {
    hide Read, Access, Record, Published, DataOf, Crc32, AllReadable, Replies, Shown, Tells, DataReads;
    var d, r, crc := Published(name, contents), Record(name, contents), Crc32(Body(name, contents));
    PublishedIsRead(name, contents);
    ReadBack(r, crc, d, 0, regs);
    forall j | 0 <= j < |regs| ensures Tells(regs[j], Replies(d, regs)[j], r, DataReads(regs[..j])) {
      EachReply(r, crc, d, 0, regs, j);
      if regs[j] == 0 {
        DataTells(Replies(d, regs)[j], r, DataReads(regs[..j]));
      } else {
        ShownTells(r, DataReads(regs[..j]), regs[j]);
      }
    }
  }

  lemma DataTells(reply: Byte, r: seq<Byte>, k: nat)
    requires |r| >= 4
    ensures Tells(0, reply, r, k)
  {
  }

  lemma PublishedIsRead(name: seq<Byte>, contents: seq<Byte>)
    requires |name| == 13 && |contents| + FILE_T < RANGE
    ensures var r := Record(name, contents);
            && Read(r, Crc32(Body(name, contents)), Published(name, contents), 0)
            && r[4..] == Body(name, contents)
            && r[..4] == Le32(Crc32(r[4..]))
  {
    hide Crc32;
  }
}
