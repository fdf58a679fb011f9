/**
 The TCP receive ring of NetNatives.cpp: lwIP's callback fills it from an interrupt while
 tcp_receive empties it, step by step.
 */
module ReceiveRing {
  import opened Octets

  const SIZE: nat := 2048

  datatype SockState = Connected | Error

  /** What a receive call has returned: -1, 0 at the end of the stream, or a number of bytes. */
  datatype Result = Failed | EndOfFile | Bytes(data: seq<Byte>)

  /**
   Where a receive call stands.  Every constructor is a point between two accesses to
   fields the callback may change; the callback runs to its end at any of them.
   */
  datatype Pc =
    | Idle
    | WaitUsed(len: nat) | WaitEof(len: nat) | WaitState(len: nat)
    | CheckState(len: nat)
    | ReadAvail(len: nat)
    | CheckEof(len: nat, avail: nat)
    | Copying(len: nat, toCopy: nat, data: seq<Byte>)

  /**
   A socket with the history of its stream: the bytes taken from segments, the number of
   bytes reported with tcp_recved, the results of finished calls, and how much had been
   taken when the remote side closed.
   */
  datatype Socket = Socket(
    buf: seq<Byte>, head: nat, tail: nat, eof: bool, state: SockState, pc: Pc,
    accepted: seq<Byte>, reported: nat, results: seq<Result>, acceptedAtClose: nat)

  datatype Action =
    | Segment(bytes: seq<Byte>) | Close | BadSegment | Reset
    | Call(len: nat) | Continue

  predicate Ring(buf: seq<Byte>, head: nat, tail: nat) {
    |buf| == SIZE && head < SIZE && tail < SIZE
  }

  /** The place n bytes on from a place in the ring. */
  function Slot(from: nat, n: nat): (k: nat)
    ensures k < SIZE
  {
    (from + n) % SIZE
  }

  /** recv_buf_used */
  function Used(head: nat, tail: nat): (n: nat)
    requires head < SIZE && tail < SIZE
    ensures n < SIZE && Slot(tail, n) == head
  {
    (head - tail + SIZE) % SIZE
  }

  /** recv_buf_free: one byte stays unused. */
  function Free(head: nat, tail: nat): nat
    requires head < SIZE && tail < SIZE
  {
    SIZE - 1 - Used(head, tail)
  }

  /** The buffered bytes, oldest first. */
  function Contents(buf: seq<Byte>, head: nat, tail: nat): (c: seq<Byte>)
    requires Ring(buf, head, tail)
    ensures |c| == Used(head, tail)
  {
    seq(Used(head, tail), i requires 0 <= i < Used(head, tail) => buf[Slot(tail, i)])
  }

  function Min(a: nat, b: nat): nat { if a < b then a else b }

  /** The ring with bytes written from `head` on, wrapping around. */
  function Filled(buf: seq<Byte>, head: nat, bytes: seq<Byte>): (r: seq<Byte>)
    requires |buf| == SIZE && head < SIZE && |bytes| < SIZE
    ensures |r| == SIZE
  {
    seq(SIZE, i requires 0 <= i < SIZE => if Used(i, head) < |bytes| then bytes[Used(i, head)] else buf[i])
  }

  function Delivered(results: seq<Result>): seq<Byte> {
    if results == [] then []
    else
      var last := results[|results| - 1];
      Delivered(results[..|results| - 1]) + if last.Bytes? then last.data else []
  }

  /** on_tcp_recv for a good segment: as much as fits is taken and reported, the rest dropped. */
  function Accept(s: Socket, bytes: seq<Byte>): Socket
    requires Ring(s.buf, s.head, s.tail)
  {
    var n := Min(|bytes|, Free(s.head, s.tail));
    s.(buf := Filled(s.buf, s.head, bytes[..n]), head := Slot(s.head, n),
       accepted := s.accepted + bytes[..n], reported := s.reported + n)
  }

  function Return(s: Socket, r: Result): Socket {
    s.(pc := Idle, results := s.results + [r])
  }

  /** One access of tcp_receive. */
  function Advance(s: Socket): Socket
    requires Ring(s.buf, s.head, s.tail)
  {
    match s.pc
    case Idle => s
    case WaitUsed(len) => s.(pc := if Used(s.head, s.tail) == 0 then WaitEof(len) else CheckState(len))
    case WaitEof(len) => s.(pc := if !s.eof then WaitState(len) else CheckState(len))
    case WaitState(len) => s.(pc := if !s.state.Error? then WaitUsed(len) else CheckState(len))
    case CheckState(len) => if s.state.Error? then Return(s, Failed) else s.(pc := ReadAvail(len))
    case ReadAvail(len) => s.(pc := CheckEof(len, Used(s.head, s.tail)))
    case CheckEof(len, avail) =>
      if avail == 0 && s.eof then Return(s, EndOfFile) else s.(pc := Copying(len, Min(len, avail), []))
    case Copying(len, toCopy, data) =>
      if |data| < toCopy then s.(pc := Copying(len, toCopy, data + [s.buf[Slot(s.tail, |data|)]]))
      else Return(s.(tail := Slot(s.tail, toCopy)), Bytes(data))
  }

  function Do(s: Socket, a: Action): Socket
    requires Ring(s.buf, s.head, s.tail)
  {
    match a
    case Segment(bytes) => Accept(s, bytes)
    case Close => s.(eof := true, acceptedAtClose := if s.eof then s.acceptedAtClose else |s.accepted|)
    case BadSegment => s.(state := Error)
    case Reset => s.(state := Error)
    case Call(len) => if s.pc.Idle? then s.(pc := WaitUsed(len)) else s
    case Continue => Advance(s)
  }

  // ----- the invariant -----

  predicate Ready(s: Socket)
    requires Ring(s.buf, s.head, s.tail)
  {
    Used(s.head, s.tail) > 0 || s.eof || s.state.Error?
  }

  predicate PcOk(s: Socket)
    requires Ring(s.buf, s.head, s.tail)
  {
    var c := Contents(s.buf, s.head, s.tail);
    match s.pc
    case Idle => true
    case WaitUsed(len) => true
    case WaitEof(len) => true
    case WaitState(len) => true
    case CheckState(len) => Ready(s)
    case ReadAvail(len) => Used(s.head, s.tail) > 0 || s.eof
    case CheckEof(len, avail) => avail <= |c| && (avail == 0 ==> s.eof && s.acceptedAtClose <= |s.accepted| - |c|)
    case Copying(len, toCopy, data) => |data| <= toCopy <= |c| && data == c[..|data|] && (toCopy == 0 <==> len == 0)
  }

  /** No byte is lost, doubled or moved, and flow control has been told of exactly the bytes taken. */
  predicate Conserved(s: Socket) {
    && Ring(s.buf, s.head, s.tail)
    && s.accepted == Delivered(s.results) + Contents(s.buf, s.head, s.tail)
    && s.reported == |s.accepted|
    && (s.eof ==> s.acceptedAtClose <= |s.accepted|)
  }

  predicate Inv(s: Socket) {
    Conserved(s) && PcOk(s)
  }

  /** alloc_socket and tcp_connect have zeroed the ring. */
  predicate Fresh(s: Socket) {
    && Ring(s.buf, s.head, s.tail) && s.head == s.tail == 0 && !s.eof && s.state == Connected && s.pc == Idle
    && s.accepted == [] && s.reported == 0 && s.results == [] && s.acceptedAtClose == 0
  }

  lemma SlotSlot(from: nat, n: nat, i: nat)
    ensures Slot(Slot(from, n), i) == Slot(from, n + i)
  {
  }

  lemma Wraps(x: nat)
    requires x < 2 * SIZE
    ensures x % SIZE == if x < SIZE then x else x - SIZE
  {
  }

  lemma UsedIs(head: nat, tail: nat)
    requires head < SIZE && tail < SIZE
    ensures Used(head, tail) == if tail <= head then head - tail else head - tail + SIZE
  {
    Wraps(head - tail + SIZE);
  }

  lemma UsedSplit(head: nat, tail: nat, n: nat)
    requires head < SIZE && tail < SIZE
    ensures n <= Free(head, tail) ==> Used(Slot(head, n), tail) == Used(head, tail) + n
    ensures n <= Used(head, tail) ==> Used(head, Slot(tail, n)) == Used(head, tail) - n
  {
    UsedIs(head, tail);
    if n < SIZE {
      Wraps(head + n);
      Wraps(tail + n);
      UsedIs(Slot(head, n), tail);
      UsedIs(head, Slot(tail, n));
    }
    hide Used;
  }

  /** How far a place of the buffered part, or of the free part, is from the head. */
  lemma FromHead(head: nat, tail: nat, i: nat)
    requires head < SIZE && tail < SIZE
    ensures i < Used(head, tail) ==> Used(Slot(tail, i), head) >= Free(head, tail)
    ensures Used(head, tail) <= i < SIZE ==> Used(Slot(tail, i), head) == i - Used(head, tail)
  {
  }

  /** The callback does not write where buffered bytes are being read. */
  lemma CallbackLeavesUnread(s: Socket, bytes: seq<Byte>, i: nat)
    requires Ring(s.buf, s.head, s.tail) && i < Used(s.head, s.tail)
    ensures Accept(s, bytes).buf[Slot(s.tail, i)] == s.buf[Slot(s.tail, i)]
  {
    FromHead(s.head, s.tail, i);
    hide Slot, Used;
  }

  /** New bytes are appended to the buffered ones. */
  lemma AcceptAppends(s: Socket, bytes: seq<Byte>)
    requires Ring(s.buf, s.head, s.tail)
    ensures var n, t := Min(|bytes|, Free(s.head, s.tail)), Accept(s, bytes);
            && Ring(t.buf, t.head, t.tail)
            && Contents(t.buf, t.head, t.tail) == Contents(s.buf, s.head, s.tail) + bytes[..n]
  {
    var n, t, used := Min(|bytes|, Free(s.head, s.tail)), Accept(s, bytes), Used(s.head, s.tail);
    UsedSplit(s.head, s.tail, n);
    hide Slot, Used;
    var before := Contents(s.buf, s.head, s.tail) + bytes[..n];
    forall i: nat | i < used + n ensures t.buf[Slot(t.tail, i)] == before[i] {
      if i < used {
        CallbackLeavesUnread(s, bytes, i);
      } else {
        FromHead(s.head, s.tail, i);
      }
    }
  }

  lemma DeliveredStep(results: seq<Result>, r: Result)
    ensures Delivered(results + [r]) == Delivered(results) + if r.Bytes? then r.data else []
  {
    assert (results + [r])[..|results|] == results;
  }

  /** Every step of the callback and of the receive call keeps the invariant. */
  lemma StepKeepsInv(s: Socket, a: Action)
    requires Inv(s)
    ensures Inv(Do(s, a))
  {
    match a {
      case Segment(bytes) => AcceptAppends(s, bytes);
      case Close =>
      case BadSegment =>
      case Reset =>
      case Call(len) =>
      case Continue => AdvanceKeepsInv(s);
    }
  }

  lemma AdvanceKeepsInv(s: Socket)
    requires Inv(s)
    ensures Inv(Advance(s))
  {
    hide Slot, Used, Contents, Delivered;
    if s.pc.Copying? {
      CopyingKeepsInv(s);
    } else if s.pc.CheckState? {
      DeliveredStep(s.results, Failed);
    } else if s.pc.CheckEof? {
      DeliveredStep(s.results, EndOfFile);
    }
  }

  lemma CopyingKeepsInv(s: Socket)
    requires Inv(s) && s.pc.Copying?
    ensures Inv(Advance(s))
  {
    hide Slot, Used, Contents, Delivered;
    var c, n, data := Contents(s.buf, s.head, s.tail), s.pc.toCopy, s.pc.data;
    if |data| < n {
      ByteAt(s.buf, s.head, s.tail, |data|);
      assert data + [c[|data|]] == c[..|data| + 1];
    } else {
      FinishKeepsInv(s);
    }
  }

  lemma ByteAt(buf: seq<Byte>, head: nat, tail: nat, i: nat)
    requires Ring(buf, head, tail) && i < Used(head, tail)
    ensures Contents(buf, head, tail)[i] == buf[Slot(tail, i)]
  {
  }

  lemma FinishKeepsInv(s: Socket)
    requires Inv(s) && s.pc.Copying? && |s.pc.data| == s.pc.toCopy
    ensures Inv(Advance(s))
  {
    hide Slot, Used, Contents, Delivered;
    var c, n := Contents(s.buf, s.head, s.tail), s.pc.toCopy;
    RingTakes(s.buf, s.head, s.tail, n);
    DeliveredStep(s.results, Bytes(s.pc.data));
    Rejoin(Delivered(s.results), c, n);
    assert s.pc.data == c[..n];
    var t := Advance(s);
    assert Contents(t.buf, t.head, t.tail) == c[n..];
  }

  lemma Rejoin(d: seq<Byte>, c: seq<Byte>, n: nat)
    requires n <= |c|
    ensures d + c == d + c[..n] + c[n..]
  {
    assert c == c[..n] + c[n..];
  }

  // ----- whole runs -----

  function Run(s: Socket, actions: seq<Action>): (t: Socket)
    requires Inv(s)
    ensures Inv(t)
    decreases |actions|
  {
    if actions == [] then s
    else
      StepKeepsInv(s, actions[0]);
      Run(Do(s, actions[0]), actions[1..])
  }

  /**
   Under every interleaving: what the calls have returned, followed by what is buffered, is
   what was taken from the segments, in order, and all of it was reported for flow control.
   */
  lemma {:induction false} StreamIsConserved(s: Socket, actions: seq<Action>)
    requires Fresh(s)
    ensures Inv(s)
    ensures var t := Run(s, actions);
            && t.accepted == Delivered(t.results) + Contents(t.buf, t.head, t.tail)
            && t.reported == |t.accepted|
            && Used(t.head, t.tail) <= SIZE - 1
  {
  }

  /** The end of the stream is only reported once everything taken before the close is delivered. */
  lemma EndOfFileIsLast(s: Socket)
    requires Inv(s) && s.pc.CheckEof? && Advance(s) == Return(s, EndOfFile)
    ensures s.eof && s.accepted[..s.acceptedAtClose] <= Delivered(s.results)
  {
    var d, c := Delivered(s.results), Contents(s.buf, s.head, s.tail);
    assert |s.accepted| == |d| + |c|;
    assert s.accepted[..s.acceptedAtClose] == d[..s.acceptedAtClose];
  }

  predicate NoSegmentAfterClose(s: Socket, actions: seq<Action>)
    decreases |actions|
  {
    actions != [] ==>
      && (s.eof ==> !actions[0].Segment?)
      && (Ring(s.buf, s.head, s.tail) ==> NoSegmentAfterClose(Do(s, actions[0]), actions[1..]))
  }

  lemma {:induction false} NothingAfterClose(s: Socket, actions: seq<Action>)
    requires Inv(s) && (s.eof ==> s.acceptedAtClose == |s.accepted|) && NoSegmentAfterClose(s, actions)
    ensures var t := Run(s, actions); t.eof ==> t.acceptedAtClose == |t.accepted|
    decreases |actions|
  {
    if actions != [] {
      StepKeepsInv(s, actions[0]);
      NothingAfterClose(Do(s, actions[0]), actions[1..]);
    }
  }

  /** When no segment follows the close, end of file means that every byte taken has been delivered. */
  lemma EndOfFileDeliversAll(s: Socket, actions: seq<Action>)
    requires Fresh(s) && Inv(s) && NoSegmentAfterClose(s, actions)
    requires var t := Run(s, actions); t.pc.CheckEof? && Advance(t) == Return(t, EndOfFile)
    ensures var t := Run(s, actions); Delivered(t.results) == t.accepted && Used(t.head, t.tail) == 0
  {
    NothingAfterClose(s, actions);
    var t := Run(s, actions);
    EndOfFileIsLast(t);
    assert t.accepted[..|t.accepted|] == t.accepted;
  }

  /** A call that asked for bytes and was not told of the end or an error gets at least one. */
  lemma CallsMakeProgress(s: Socket)
    requires Inv(s) && s.pc.CheckEof? && !Advance(s).pc.Idle? && s.pc.len > 0
    ensures Advance(s).pc.Copying? && Advance(s).pc.toCopy > 0
  {
  }

  // ----- the copying itself -----

  /** Part of an array replaced. */
  function Replaced(a: seq<Byte>, at: nat, bytes: seq<Byte>): (r: seq<Byte>)
    requires at + |bytes| <= |a|
    ensures |r| == |a|
  {
    a[..at] + bytes + a[at + |bytes|..]
  }

  /** memcpy and pbuf_copy_partial. */
  method CopyPartial(target: array<Byte>, at: nat, source: seq<Byte>)
    requires at + |source| <= target.Length
    modifies target
    ensures target[..] == Replaced(old(target[..]), at, source)
  {
    var i := 0;
    while i < |source|
      invariant 0 <= i <= |source|
      invariant target[..] == Replaced(old(target[..]), at, source[..i])
    {
      target[at + i] := source[i];
      i := i + 1;
    }
    assert source[..|source|] == source;
  }

  /** Writing in two parts, up to the end and from the start, is writing around the ring. */
  lemma TwoParts(buf: seq<Byte>, head: nat, bytes: seq<Byte>, first: nat)
    requires |buf| == SIZE && head < SIZE && |bytes| < SIZE && first == Min(SIZE - head, |bytes|)
    ensures Replaced(Replaced(buf, head, bytes[..first]), 0, bytes[first..]) == Filled(buf, head, bytes)
  {
    var r := Replaced(Replaced(buf, head, bytes[..first]), 0, bytes[first..]);
    forall i: nat | i < SIZE ensures r[i] == Filled(buf, head, bytes)[i] {
      UsedIs(i, head);
    }
  }

  class RecvBuffer {
    const buf: array<Byte>
    var head: nat
    var tail: nat

    ghost predicate Valid()
      reads this, buf
    {
      Ring(buf[..], head, tail)
    }

    constructor ()
      ensures Valid() && head == tail == 0 && fresh(buf)
    {
      buf := new Byte[SIZE](_ => 0);
      head, tail := 0, 0;
    }

    /** The data part of on_tcp_recv. */
    method OnTcpRecv(segment: seq<Byte>) returns (taken: nat)
      requires Valid()
      modifies this`head, buf
      ensures Valid() && taken == Min(|segment|, Free(old(head), tail))
      ensures buf[..] == Filled(old(buf[..]), old(head), segment[..taken]) && head == Slot(old(head), taken)
    {
      taken := Min(|segment|, Free(head, tail));
      ghost var before := buf[..];
      if taken > 0 {
        var first := Min(SIZE - head, taken);
        TwoParts(before, head, segment[..taken], first);
        assert segment[..taken][..first] == segment[..first] && segment[..taken][first..] == segment[first..taken];
        CopyPartial(buf, head, segment[..first]);
        if taken > first {
          CopyPartial(buf, 0, segment[first..taken]);
        }
        head := Slot(head, taken);
      }
    }

    /** The part of tcp_receive behind the wait, when no callback interrupts it. */
    method Take(data: array<Byte>, offset: nat, len: nat) returns (count: nat)
      requires Valid() && data != buf && offset + len <= data.Length
      modifies this`tail, data
      ensures Valid() && count == Min(len, Used(head, old(tail)))
      ensures data[..] == Replaced(old(data[..]), offset, Contents(buf[..], head, old(tail))[..count])
      ensures Contents(buf[..], head, tail) == Contents(buf[..], head, old(tail))[count..]
    {
      hide Slot, Used, Contents, Replaced;
      count := Min(len, Used(head, tail));
      var first := Min(SIZE - tail, count);
      ghost var before, ring := data[..], buf[..];
      FirstPart(ring, head, tail, count, first);
      RingTakes(ring, head, tail, count);
      InTwo(before, offset, ring[tail..tail + first], ring[..count - first]);
      CopyPartial(data, offset, buf[tail..tail + first]);
      if count > first {
        CopyPartial(data, offset + first, buf[..count - first]);
      }
      tail := Slot(tail, count);
    }
  }

  lemma InTwo(a: seq<Byte>, at: nat, x: seq<Byte>, y: seq<Byte>)
    requires at + |x| + |y| <= |a|
    ensures Replaced(Replaced(a, at, x), at + |x|, y) == Replaced(a, at, x + y)
    ensures y == [] ==> Replaced(a, at, x) == Replaced(a, at, x + y)
  {
  }

  /** The bytes to deliver lie in one or two stretches of the ring. */
  lemma FirstPart(buf: seq<Byte>, head: nat, tail: nat, count: nat, first: nat)
    requires Ring(buf, head, tail) && count <= Used(head, tail) && first == Min(SIZE - tail, count)
    ensures Contents(buf, head, tail)[..count] == buf[tail..tail + first] + buf[..count - first]
  {
    forall i: nat | i < count ensures Contents(buf, head, tail)[i] == (buf[tail..tail + first] + buf[..count - first])[i] {
      Wraps(tail + i);
    }
  }

  lemma RingTakes(buf: seq<Byte>, head: nat, tail: nat, n: nat)
    requires Ring(buf, head, tail) && n <= Used(head, tail)
    ensures Contents(buf, head, Slot(tail, n)) == Contents(buf, head, tail)[n..]
  {
    UsedSplit(head, tail, n);
    hide Slot, Used;
    var c := Contents(buf, head, Slot(tail, n));
    forall i: nat | i < |c| ensures c[i] == Contents(buf, head, tail)[n + i] {
      SlotSlot(tail, n, i);
    }
  }
}
