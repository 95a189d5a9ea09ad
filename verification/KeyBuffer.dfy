/** The ring buffer called from one place at a time: a queue of up to 255 bytes. */
module KeyBuffer {
  import opened Ring
  import opened Words

  /** n bytes from index `at` on, wrapping round. */
  function Slice(buffer: seq<Byte>, at: nat, n: nat): (s: seq<Byte>)
    requires |buffer| == SIZE
    ensures |s| == n
  {
    seq(n, k requires 0 <= k < n => buffer[(at + k) % 256])
  }

  function Between(head: Byte, tail: Byte): nat { (head - tail) % 256 }

  lemma BetweenUp(head: Byte, tail: Byte)
    ensures Up(head) == tail <==> Between(head, tail) == 255
    ensures Up(head) != tail ==> Between(Up(head), tail) == Between(head, tail) + 1
    ensures (tail + Between(head, tail)) % 256 == head
  {
  }

  lemma SlicePut(b: seq<Byte>, head: Byte, tail: Byte, data: Byte)
    requires |b| == SIZE && Up(head) != tail
    ensures Slice(b[head := data], tail, Between(Up(head), tail)) == Slice(b, tail, Between(head, tail)) + [data]
  {
    hide Between;
    BetweenUp(head, tail);
    BetweenSmall(head, tail);
    var n := Between(head, tail);
    var c := b[head := data];
    forall k | 0 <= k < n ensures Slice(c, tail, n + 1)[k] == Slice(b, tail, n)[k] {
      SlotsDiffer(tail + k, tail + n);
    }
  }

  lemma BetweenSmall(head: Byte, tail: Byte)
    ensures Between(head, tail) <= 255
    ensures head != tail <==> Between(head, tail) > 0
    ensures head != tail ==> Between(head, Up(tail)) == Between(head, tail) - 1
  {
  }

  lemma SliceGet(b: seq<Byte>, head: Byte, tail: Byte)
    requires |b| == SIZE && head != tail
    ensures Slice(b, tail, Between(head, tail)) == [b[tail]] + Slice(b, Up(tail), Between(head, Up(tail)))
  {
    hide Between;
    BetweenSmall(head, tail);
    var n := Between(head, tail);
    var rest := Slice(b, Up(tail), n - 1);
    forall k | 0 <= k < n - 1 ensures Slice(b, tail, n)[k + 1] == rest[k] {
      assert (tail + (k + 1)) % 256 == (Up(tail) + k) % 256;
    }
    assert Slice(b, tail, n)[0] == b[tail];
  }

  /** Between head and tail of a run lie the bytes accepted and not yet returned. */
  lemma HeldBytes(ss: seq<State>, i: nat)
    requires Run(ss) && i < |ss|
    ensures var s := ss[i];
            && |s.buffer| == SIZE && |s.returned| <= |s.accepted|
            && Slice(s.buffer, s.tail, Between(s.head, s.tail)) == s.accepted[|s.returned|..]
  {
    Invariant(ss);
    var s := ss[i];
    assert Inv(s);
    var n, m := |s.accepted|, |s.returned|;
    hide Between;
    BetweenIs(n, m);
    var late := s.accepted[m..];
    forall k | 0 <= k < n - m ensures s.buffer[(s.tail + k) % 256] == late[k] {
      Around(m, k);
      assert s.buffer[(m + k) % 256] == s.accepted[m + k];
    }
  }

  lemma BetweenIs(n: nat, m: nat)
    requires m <= n <= m + 255
    ensures Between(n % 256, m % 256) == n - m
  {
  }

  lemma Around(m: nat, k: nat)
    ensures (m % 256 + k) % 256 == (m + k) % 256
  {
  }

  class KeyBuffer {
    const buffer: array<Byte>
    var head: Byte
    var tail: Byte

    ghost predicate Valid()
      reads this
    {
      buffer.Length == SIZE
    }

    /** What is held, the oldest first. */
    ghost function Contents(): (s: seq<Byte>)
      requires Valid()
      reads this, buffer
      ensures |s| <= 255
    {
      BetweenSmall(head, tail);
      Slice(buffer[..], tail, Between(head, tail))
    }

    /** kb_init */
    constructor ()
      ensures Valid() && Contents() == [] && fresh(buffer)
    {
      buffer := new Byte[SIZE];
      head, tail := 0, 0;
    }

    /** kb_put */
    method Put(data: Byte) returns (ok: bool)
      requires Valid()
      modifies `head, buffer
      ensures Valid() && ok == (|old(Contents())| < 255)
      ensures Contents() == if ok then old(Contents()) + [data] else old(Contents())
    {
      hide Between, Slice;
      BetweenUp(head, tail);
      BetweenSmall(head, tail);
      var next := Up(head);
      if next == tail {
        return false;
      }
      ghost var b := buffer[..];
      SlicePut(b, head, tail, data);
      buffer[head] := data;
      assert buffer[..] == b[head := data];
      head := next;
      ok := true;
    }

    /** kb_get */
    method Get() returns (ok: bool, data: Byte)
      requires Valid()
      modifies `tail
      ensures Valid() && ok == (old(Contents()) != [])
      ensures if ok then old(Contents()) == [data] + Contents() else Contents() == old(Contents())
    {
      hide Between, Slice;
      BetweenSmall(head, tail);
      data := 0;
      if head == tail {
        return false, data;
      }
      SliceGet(buffer[..], head, tail);
      data := buffer[tail];
      tail := Up(tail);
      ok := true;
    }

    /** kb_available */
    method Available() returns (some: bool)
      requires Valid()
      ensures some == (Contents() != [])
    {
      BetweenSmall(head, tail);
      some := head != tail;
    }
  }
}
