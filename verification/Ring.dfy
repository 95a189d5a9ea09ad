/** The keyboard ring buffer, as single loads and stores of a producer and a
    consumer that run side by side in any order. */
module Ring {
  import opened Words

  const SIZE: nat := 256

  /** Index arithmetic in eight bits. */
  function Up(i: Byte): Byte { (i + 1) % 256 }

  /** Where a call of kb_put is. */
  datatype Put =
    | PutIdle
    | PutNext(data: Byte, next: Byte)                   // head loaded, next_head computed
    | PutRoom(data: Byte, next: Byte)                   // tail loaded: not full
    | PutAt(data: Byte, next: Byte, at: Byte)           // head loaded again for the store
    | PutStored(data: Byte, next: Byte)                 // byte stored, head not yet

  /** Where a call of kb_get is.  Head and tail are compared in either order. */
  datatype Get =
    | GetIdle
    | GetHead(h: Byte, seen: nat)                       // head loaded first, when `seen` bytes were in
    | GetTail(t: Byte)                                  // tail loaded first
    | GetSome                                           // compared: not empty
    | GetAt(at: Byte)                                   // tail loaded again for the read
    | GetRead(data: Byte)                               // byte read
    | GetUp(data: Byte, t: Byte)                        // tail loaded for the increment

  /** `accepted` and `returned` are the bytes of the calls that came back true. */
  datatype State = State(buffer: seq<Byte>, head: Byte, tail: Byte, put: Put, get: Get,
                         accepted: seq<Byte>, returned: seq<Byte>)

  predicate Init(s: State) {
    && |s.buffer| == SIZE && s.head == 0 && s.tail == 0 && s.put == PutIdle && s.get == GetIdle
    && s.accepted == [] && s.returned == []
  }

  /** One load or store of kb_put. */
  predicate PutStep(s: State, t: State)
    requires |s.buffer| == SIZE
  {
    match s.put
    case PutIdle => t.put.PutNext? && t == s.(put := PutNext(t.put.data, Up(s.head)))
    case PutNext(data, next) => t == s.(put := if next == s.tail then PutIdle else PutRoom(data, next))
    case PutRoom(data, next) => t == s.(put := PutAt(data, next, s.head))
    case PutAt(data, next, at) => t == s.(put := PutStored(data, next), buffer := s.buffer[at := data])
    case PutStored(data, next) => t == s.(put := PutIdle, head := next, accepted := s.accepted + [data])
  }

  /** One load or store of kb_get. */
  predicate GetStep(s: State, t: State)
    requires |s.buffer| == SIZE
  {
    match s.get
    case GetIdle => t == s.(get := GetHead(s.head, |s.accepted|)) || t == s.(get := GetTail(s.tail))
    case GetHead(h, _) => t == s.(get := if h == s.tail then GetIdle else GetSome)
    case GetTail(tail) => t == s.(get := if s.head == tail then GetIdle else GetSome)
    case GetSome => t == s.(get := GetAt(s.tail))
    case GetAt(at) => t == s.(get := GetRead(s.buffer[at]))
    case GetRead(data) => t == s.(get := GetUp(data, s.tail))
    case GetUp(data, tail) => t == s.(get := GetIdle, tail := Up(tail), returned := s.returned + [data])
  }

  predicate Step(s: State, t: State) {
    |s.buffer| == SIZE && (PutStep(s, t) || GetStep(s, t))
  }

  /** States one after another, each one step from the last. */
  ghost predicate Run(ss: seq<State>) {
    && ss != [] && Init(ss[0])
    && forall i :: 0 <= i < |ss| - 1 ==> Step(ss[i], ss[i + 1])
  }

  // ----- what every step keeps -----

  function Held(s: State): int { |s.accepted| - |s.returned| }

  predicate Index(i: Byte, n: nat) { i == n % 256 }

  ghost predicate Shared(s: State) {
    && |s.buffer| == SIZE && 0 <= Held(s) <= 255
    && Index(s.head, |s.accepted|) && Index(s.tail, |s.returned|)
    && s.returned == s.accepted[..|s.returned|]
    && forall k :: |s.returned| <= k < |s.accepted| ==> s.buffer[k % 256] == s.accepted[k]
  }

  ghost predicate PutFits(s: State) {
    match s.put
    case PutIdle => true
    case PutNext(_, next) => next == Up(s.head)
    case PutRoom(_, next) => next == Up(s.head) && Held(s) < 255
    case PutAt(_, next, at) => next == Up(s.head) && Held(s) < 255 && at == s.head
    case PutStored(data, next) => next == Up(s.head) && Held(s) < 255 && |s.buffer| == SIZE && s.buffer[s.head] == data
  }

  ghost predicate GetFits(s: State) {
    match s.get
    case GetIdle => true
    case GetHead(h, seen) => Index(h, seen) && |s.returned| <= seen <= |s.accepted| && seen - |s.returned| <= 255
    case GetTail(t) => t == s.tail
    case GetSome => Held(s) > 0
    case GetAt(at) => Held(s) > 0 && at == s.tail
    case GetRead(data) => Held(s) > 0 && data == s.accepted[|s.returned|]
    case GetUp(data, t) => Held(s) > 0 && data == s.accepted[|s.returned|] && t == s.tail
  }

  ghost predicate Inv(s: State) { Shared(s) && PutFits(s) && GetFits(s) }

  lemma IndexUp(i: Byte, n: nat)
    requires Index(i, n)
    ensures Index(Up(i), n + 1)
  {
  }

  /** Within 255 of each other, different counts have different slots. */
  lemma SlotsDiffer(a: nat, b: nat)
    requires a < b <= a + 255
    ensures a % 256 != b % 256
  {
  }

  /** A byte stored at the head overwrites nothing that is held. */
  lemma StoreKeeps(s: State, at: Byte, data: Byte)
    requires Shared(s) && at == s.head && Held(s) < 255
    ensures Shared(s.(buffer := s.buffer[at := data]))
  {
    var t := s.(buffer := s.buffer[at := data]);
    var n := |s.accepted|;
    forall k | |s.returned| <= k < n ensures t.buffer[k % 256] == t.accepted[k] {
      SlotsDiffer(k, n);
    }
  }

  lemma PutKeeps(s: State, t: State)
    requires Inv(s) && PutStep(s, t)
    ensures Inv(t)
  {
    var n, m := |s.accepted|, |s.returned|;
    match s.put
    case PutIdle =>
    case PutNext(data, next) =>
      IndexUp(s.head, n);
    case PutRoom(data, next) =>
    case PutAt(data, next, at) =>
      StoreKeeps(s, at, data);
    case PutStored(data, next) =>
      IndexUp(s.head, n);
  }

  lemma GetKeeps(s: State, t: State)
    requires Inv(s) && GetStep(s, t)
    ensures Inv(t)
  {
    var n, m := |s.accepted|, |s.returned|;
    match s.get
    case GetIdle =>
    case GetHead(h, seen) =>
    case GetTail(tail) =>
    case GetSome =>
    case GetAt(at) =>
      assert s.buffer[m % 256] == s.accepted[m];
    case GetRead(data) =>
    case GetUp(data, tail) =>
      IndexUp(s.tail, m);
      assert s.accepted[..m + 1] == s.accepted[..m] + [s.accepted[m]];
  }

  lemma {:induction false} Invariant(ss: seq<State>)
    requires Run(ss)
    ensures forall i :: 0 <= i < |ss| ==> Inv(ss[i])
  {
    var n := |ss| - 1;
    if n > 0 {
      Invariant(ss[..n]);
      assert Inv(ss[..n][n - 1]) && Step(ss[n - 1], ss[n - 1 + 1]);
      if PutStep(ss[n - 1], ss[n]) {
        PutKeeps(ss[n - 1], ss[n]);
      } else {
        GetKeeps(ss[n - 1], ss[n]);
      }
      forall i | 0 <= i < |ss| ensures Inv(ss[i]) {
        assert i < n ==> Inv(ss[..n][i]);
      }
    }
  }

  // ----- what that means for the callers -----

  /** Nothing is lost, doubled, invented or put out of order, however loads and
      stores fall; and no more than 255 bytes are ever held. */
  lemma InOrder(ss: seq<State>, i: nat)
    requires Run(ss) && i < |ss|
    ensures ss[i].returned <= ss[i].accepted && 0 <= Held(ss[i]) <= 255
  {
    Invariant(ss);
    assert Inv(ss[i]);
  }

  /** The slot about to be written is not the one being read, whatever else is going on. */
  lemma NeverOverwritten(ss: seq<State>, i: nat)
    requires Run(ss) && i < |ss|
    ensures ss[i].put.PutAt? && ss[i].get.GetAt? ==> ss[i].put.at != ss[i].get.at
  {
    Invariant(ss);
    var s := ss[i];
    assert Inv(s);
    if s.put.PutAt? && s.get.GetAt? {
      SlotsDiffer(|s.returned|, |s.accepted|);
    }
  }

  /** A byte is turned away exactly when 255 are held. */
  lemma RefusedWhenFull(s: State)
    requires Inv(s) && s.put.PutNext?
    ensures s.put.next == s.tail <==> Held(s) == 255
  {
    IndexUp(s.head, |s.accepted|);
    if Held(s) < 255 {
      SlotsDiffer(|s.returned|, |s.accepted| + 1);
    }
  }

  /** A call of kb_get finds nothing exactly when nothing was held as it loaded the head. */
  lemma EmptyWhenSeen(s: State)
    requires Inv(s)
    ensures s.get.GetHead? ==> (s.get.h == s.tail <==> s.get.seen == |s.returned|)
    ensures s.get.GetTail? ==> (s.head == s.get.t <==> Held(s) == 0)
  {
    if s.get.GetHead? && s.get.seen > |s.returned| {
      SlotsDiffer(|s.returned|, s.get.seen);
    }
    if s.get.GetTail? && Held(s) > 0 {
      SlotsDiffer(|s.returned|, |s.accepted|);
    }
  }

  /** What was accepted or returned stays so, and in its place. */
  lemma {:induction false} HistoriesGrow(ss: seq<State>, i: nat, j: nat)
    requires Run(ss) && i <= j < |ss|
    ensures ss[i].accepted <= ss[j].accepted && ss[i].returned <= ss[j].returned
    decreases j
  {
    if i < j {
      HistoriesGrow(ss, i, j - 1);
      var k := j - 1;
      assert Step(ss[k], ss[k + 1]);
      Grows(ss[k], ss[j]);
    }
  }

  /** So the bytes that are returned in a stretch of a run are the next ones that had
      been accepted, however the two sides took turns. */
  lemma NextInOrder(ss: seq<State>, i: nat, j: nat)
    requires Run(ss) && i <= j < |ss|
    ensures var before, after := |ss[i].returned|, |ss[j].returned|;
            before <= after <= |ss[j].accepted| && ss[j].returned[before..] == ss[j].accepted[before..after]
  {
    HistoriesGrow(ss, i, j);
    InOrder(ss, j);
  }

  lemma Grows(s: State, t: State)
    requires Step(s, t)
    ensures s.accepted <= t.accepted && s.returned <= t.returned
  {
  }
}
