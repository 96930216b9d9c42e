/**
 One direction of a socket pair: a ring buffer of 4096 slots, one always empty, written in chunks by
 one endpoint and read in chunks by the other, as a byte stream. Copies to and from user memory may
 fail, as the environment decides.
 */
module SocketStream {

  type Byte = b: nat | b < 256

  const BUFFER_SIZE: nat := 4096
  const CHUNK: nat := 512

  function Min(a: nat, b: nat): nat { if a < b then a else b }

  // ---------------------------------------------------------------- the ring

  /** The bytes between tail and head, across the end of the buffer. */
  function Ring(data: seq<Byte>, head: nat, tail: nat): seq<Byte>
    requires |data| == BUFFER_SIZE && head < BUFFER_SIZE && tail < BUFFER_SIZE
  {
    if tail <= head then data[tail..head] else data[tail..] + data[..head]
  }

  function After(i: nat): nat { (i + 1) % BUFFER_SIZE }

  lemma RingPush(data: seq<Byte>, head: nat, tail: nat, b: Byte)
    requires |data| == BUFFER_SIZE && head < BUFFER_SIZE && tail < BUFFER_SIZE
    requires |Ring(data, head, tail)| < BUFFER_SIZE - 1
    ensures Ring(data[head := b], After(head), tail) == Ring(data, head, tail) + [b]
  {
    AfterIs(head);
    var data' := data[head := b];
    if head == BUFFER_SIZE - 1 {
      assert data'[tail..] + data'[..0] == data[tail..head] + [b];
    } else if tail <= head {
      assert data'[tail..head + 1] == data[tail..head] + [b];
    } else {
      assert data'[..head + 1] == data[..head] + [b] && data'[tail..] == data[tail..];
    }
  }

  lemma AfterIs(i: nat)
    requires i < BUFFER_SIZE
    ensures After(i) == if i == BUFFER_SIZE - 1 then 0 else i + 1
  {
  }

  lemma RingPop(data: seq<Byte>, head: nat, tail: nat)
    requires |data| == BUFFER_SIZE && head < BUFFER_SIZE && tail < BUFFER_SIZE && Ring(data, head, tail) != []
    ensures Ring(data, head, tail) == [data[tail]] + Ring(data, head, After(tail))
  {
    AfterIs(tail);
    if tail <= head {
      assert data[tail..head] == [data[tail]] + data[tail + 1..head];
    } else if tail == BUFFER_SIZE - 1 {
      assert data[tail..] == [data[tail]] && data[0..head] == data[..head];
    } else {
      assert data[tail..] == [data[tail]] + data[tail + 1..];
      assert tail + 1 == head + 1 || head < tail + 1;
    }
  }

  class RingBuffer {
    const data: array<Byte>
    var head: nat
    var tail: nat

    ghost predicate Valid()
      reads this
    {
      data.Length == BUFFER_SIZE && head < BUFFER_SIZE && tail < BUFFER_SIZE
    }

    ghost function Contents(): seq<Byte>
      requires Valid()
      reads this, data
    {
      Ring(data[..], head, tail)
    }

    constructor ()
      ensures Valid() && Contents() == [] && fresh(data)
    {
      data := new Byte[BUFFER_SIZE](i => 0);
      head, tail := 0, 0;
    }

    function Len(): (n: nat)
      requires Valid()
      reads this, data
      ensures n == |Contents()| < BUFFER_SIZE
    {
      if head >= tail then head - tail else BUFFER_SIZE - (tail - head)
    }

    predicate IsEmpty()
      requires Valid()
      reads this, data
      ensures IsEmpty() <==> Contents() == []
    {
      head == tail
    }

    predicate IsFull()
      requires Valid()
      reads this, data
      ensures IsFull() <==> |Contents()| == BUFFER_SIZE - 1
    {
      (head + 1) % BUFFER_SIZE == tail
    }

    function AvailableSpace(): (n: nat)
      requires Valid()
      reads this, data
      ensures n == BUFFER_SIZE - 1 - |Contents()|
    {
      if IsFull() then 0 else BUFFER_SIZE - Len() - 1
    }

    /** As much of src as there is room for goes to the end of the stream. */
    method PushSlice(src: seq<Byte>) returns (n: nat)
      requires Valid()
      modifies this`head, data
      ensures Valid() && n == Min(|src|, BUFFER_SIZE - 1 - |old(Contents())|)
      ensures Contents() == old(Contents()) + src[..n]
    {
      n := Min(|src|, AvailableSpace());
      ghost var was, room := Contents(), AvailableSpace();
      assert was + src[..0] == was;
      for i := 0 to n
        invariant Valid() && n <= room && |was| + room == BUFFER_SIZE - 1
        invariant Contents() == was + src[..i]
      {
        PushByte(src[i]);
        assert was + src[..i] + [src[i]] == was + src[..i + 1];
      }
    }

    method PushByte(b: Byte)
      requires Valid() && |Contents()| < BUFFER_SIZE - 1
      modifies this`head, data
      ensures Valid() && Contents() == old(Contents()) + [b]
    {
      RingPush(data[..], head, tail, b);
      ghost var was := data[..];
      data[head] := b;
      assert data[..] == was[head := b];
      head := (head + 1) % BUFFER_SIZE;
    }

    /** The front of the stream moves to the front of dst, as far as dst is wide. */
    method PopSlice(dst: array<Byte>, width: nat) returns (n: nat)
      requires Valid() && width <= dst.Length && dst != data
      modifies this`tail, dst
      ensures Valid() && n == Min(width, |old(Contents())|)
      ensures old(Contents()) == dst[..n] + Contents()
      ensures forall i :: n <= i < dst.Length ==> dst[i] == old(dst[i])
    {
      n := Min(width, Len());
      ghost var was, out := Contents(), [];
      for i := 0 to n
        invariant Valid() && n <= |was| && |out| == i
        invariant was == out + Contents()
        invariant forall j :: 0 <= j < i ==> dst[j] == out[j]
        invariant forall j :: i <= j < dst.Length ==> dst[j] == old(dst[j])
      {
        ghost var held := Contents();
        assert |held| == |was| - i;
        var b := PopByte();
        ghost var rest := Contents();
        dst[i] := b;
        assert Contents() == rest;
        assert out + held == out + [b] + rest;
        out := out + [b];
      }
      assert dst[..n] == out;
    }

    method PopByte() returns (b: Byte)
      requires Valid() && Contents() != []
      modifies this`tail
      ensures Valid() && old(Contents()) == [b] + Contents()
    {
      RingPop(data[..], head, tail);
      b := data[tail];
      tail := (tail + 1) % BUFFER_SIZE;
    }
  }

  // ---------------------------------------------------------------- what is promised

  datatype Error = InvalidPointer | WouldBlock | UnsupportedOperation

  datatype Poll = Pending | Done(count: nat) | Failed(error: Error)

  datatype Op =
    | ReadOp(len: nat, copyOk: bool, nonblocking: bool)
    | WriteOp(bytes: seq<Byte>, copyOk: bool, nonblocking: bool, closing: bool)
    | CloseOp

  /** What an operation is told, what it got into user memory, and what its failed copy lost. */
  datatype Reply = Reply(poll: Poll, out: seq<Byte>, lost: seq<Byte>)

  /** The bytes a reply reports written. */
  function Wrote(op: Op, r: Reply): seq<Byte> {
    if op.WriteOp? && r.poll.Done? && r.poll.count <= |op.bytes| then op.bytes[..r.poll.count] else []
  }

  /** A run: the operations so far, each with its reply, the last one outermost. */
  datatype Log = Start | Then(before: Log, op: Op, reply: Reply)

  function OpsOf(log: Log): seq<Op> {
    match log
    case Start => []
    case Then(before, op, _) => OpsOf(before) + [op]
  }

  function Written(log: Log): seq<Byte> {
    match log
    case Start => []
    case Then(before, op, r) => Written(before) + Wrote(op, r)
  }

  /** Everything taken out of the stream, delivered or lost, in order. */
  function Taken(log: Log): seq<Byte> {
    match log
    case Start => []
    case Then(before, _, r) => Taken(before) + r.out + r.lost
  }

  function Received(log: Log): seq<Byte> {
    match log
    case Start => []
    case Then(before, _, r) => Received(before) + r.out
  }

  predicate NoLoss(log: Log) { log.Start? || (log.reply.lost == [] && NoLoss(log.before)) }

  /** Without a failed copy, what was taken is what was received. */
  lemma {:induction false} NothingLost(log: Log)
    requires NoLoss(log)
    ensures Taken(log) == Received(log)
  {
    if log.Then? { NothingLost(log.before); }
  }

  /** Whether the writing end is closed after the operation, given whether it was before. */
  predicate Closes(op: Op, closed: bool) {
    closed || op.CloseOp? || (op.WriteOp? && op.bytes != [] && op.copyOk && op.closing)
  }

  /** What the operation is told and how much it moves, given the closed state and how many bytes the ring holds. */
  predicate Owed(op: Op, r: Reply, closed: bool, left: nat) {
    match op
    case CloseOp => r == Reply(Done(0), [], [])
    case WriteOp(bytes, copyOk, nonblocking, closing) =>
      r == Reply(
        if closed then Failed(UnsupportedOperation)
        else if bytes == [] then Done(0)
        else if !copyOk then Failed(InvalidPointer)
        else if closing then Failed(UnsupportedOperation)
        else if left >= BUFFER_SIZE - 1 then (if nonblocking then Failed(WouldBlock) else Pending)
        else Done(Min(Min(|bytes|, CHUNK), BUFFER_SIZE - 1 - left)), [], [])
    case ReadOp(len, copyOk, nonblocking) =>
      var n := Min(Min(len, CHUNK), left);
      if len == 0 then r == Reply(Done(0), [], [])
      else if left == 0 then r ==
        Reply(if closed then Done(0) else if nonblocking then Failed(WouldBlock) else Pending, [], [])
      else if copyOk then r.poll == Done(n) && |r.out| == n && r.lost == []
      else r.poll == Failed(InvalidPointer) && r.out == [] && |r.lost| == n
  }

  /** As many as asked for, as many as there are, or the 512 of one turn: the least of them, and at least one. */
  predicate Most(n: nat, asked: nat, there: nat) {
    && 1 <= n <= asked && n <= there && n <= 512
    && (n == asked || n == there || n == 512)
  }

  // ---------------------------------------------------------------- the two ends

  /** One direction: what was accepted is what was taken out, followed by what the ring holds. */
  class SocketBus {
    const buffer: RingBuffer
    var isClosed: bool
    ghost var accepted: seq<Byte>
    ghost var taken: seq<Byte>

    ghost predicate Valid()
      reads this, buffer, buffer.data
    {
      buffer.Valid() && accepted == taken + buffer.Contents()
    }

    constructor ()
      ensures Valid() && !isClosed && accepted == [] && taken == [] && fresh(buffer) && fresh(buffer.data)
    {
      buffer := new RingBuffer();
      isClosed, accepted, taken := false, [], [];
    }

    /**
     `read_async` on the reading end. out is what reached user memory and lost what a failed copy dropped. A read of
     non-zero length reports 0 only at the end of the stream: the peer has closed and everything accepted was taken.
     */
    method Read(len: nat, copyOk: bool, nonblocking: bool) returns (r: Poll, out: seq<Byte>, lost: seq<Byte>)
      requires Valid()
      modifies this`taken, buffer`tail
      ensures Valid() && accepted == old(accepted) && taken == old(taken) + out + lost
      ensures Owed(ReadOp(len, copyOk, nonblocking), Reply(r, out, lost), isClosed, |old(buffer.Contents())|)
      ensures r == Done(0) && len > 0 ==> isClosed && taken == accepted
      ensures len > 0 && old(buffer.Contents()) != [] && copyOk ==>
                && r == Done(|out|) && Most(|out|, len, |old(buffer.Contents())|) &&
                     out == old(buffer.Contents())[..|out|]
      ensures len > 0 && old(buffer.Contents()) != [] && !copyOk ==>
                && r == Failed(InvalidPointer) && out == []
                && Most(|lost|, len, |old(buffer.Contents())|) && lost == old(buffer.Contents())[..|lost|]
      ensures len > 0 && old(buffer.Contents()) == [] ==>
                r == if isClosed then Done(0) else if nonblocking then Failed(WouldBlock) else Pending
    {
      out, lost := [], [];
      if len == 0 { return Done(0), [], []; }
      if !buffer.IsEmpty() {
        var temp := new Byte[CHUNK](i => 0);
        ghost var was := buffer.Contents();
        var count := buffer.PopSlice(temp, Min(len, CHUNK));
        taken := taken + temp[..count];
        assert old(taken) + was == taken + buffer.Contents();
        if !copyOk { return Failed(InvalidPointer), [], temp[..count]; }
        return Done(count), temp[..count], [];
      }
      if isClosed { return Done(0), [], []; }
      r := if nonblocking then Failed(WouldBlock) else Pending;
    }

    /**
     `write_async` on the writing end; closing says that the endpoint is closed between the two checks.
     What is reported written is what was accepted, at least one byte unless none was offered.
     */
    method Write(bytes: seq<Byte>, copyOk: bool, nonblocking: bool, closing: bool) returns (r: Poll)
      requires Valid()
      modifies this`accepted, this`isClosed, buffer`head, buffer.data
      ensures Valid() && taken == old(taken)
      ensures accepted == old(accepted) + Wrote(WriteOp(bytes, copyOk, nonblocking, closing), Reply(r, [], []))
      ensures isClosed <==> Closes(WriteOp(bytes, copyOk, nonblocking, closing), old(isClosed))
      ensures Owed(WriteOp(bytes, copyOk, nonblocking, closing), Reply(r, [], []), old(isClosed),
                   |old(buffer.Contents())|)
      ensures bytes != [] && copyOk && !closing && !old(isClosed) && |old(buffer.Contents())| < 4095 ==>
                && r.Done? && Most(r.count, |bytes|, 4095 - |old(buffer.Contents())|)
                && buffer.Contents() == old(buffer.Contents()) + bytes[..r.count]
      ensures bytes != [] && copyOk && !closing && !old(isClosed) && |old(buffer.Contents())| == 4095 ==>
                r == if nonblocking then Failed(WouldBlock) else Pending
      ensures old(isClosed) ==> r == Failed(UnsupportedOperation) && accepted == old(accepted)
    {
      if isClosed { return Failed(UnsupportedOperation); }
      if bytes == [] { return Done(0); }
      var temp := bytes[..Min(|bytes|, CHUNK)];
      if !copyOk { return Failed(InvalidPointer); }
      isClosed := isClosed || closing;
      if isClosed { return Failed(UnsupportedOperation); }
      if buffer.IsFull() { return if nonblocking then Failed(WouldBlock) else Pending; }
      ghost var was := buffer.Contents();
      var count := buffer.PushSlice(temp);
      assert temp[..count] == bytes[..count];
      accepted := accepted + bytes[..count];
      assert taken + (was + bytes[..count]) == taken + was + bytes[..count];
      r := Done(count);
    }

    /** The writing endpoint is dropped. */
    method Close()
      requires Valid()
      modifies this`isClosed
      ensures Valid() && isClosed
    {
      isClosed := true;
    }
  }

  // ---------------------------------------------------------------- whole runs

  predicate Closed(log: Log) { log.Then? && Closes(log.op, Closed(log.before)) }

  /** The reply owed when these bytes have been accepted and those taken. */
  predicate Due(op: Op, r: Reply, closed: bool, accepted: seq<Byte>, taken: seq<Byte>) {
    |taken| <= |accepted| && Owed(op, r, closed, |accepted| - |taken|)
  }

  /** Every reply is the one its operation was owed at its turn. */
  predicate AllOwed(log: Log) {
    log.Then? ==>
      && AllOwed(log.before)
      && Due(log.op, log.reply, Closed(log.before), Written(log.before), Taken(log.before))
  }

  /**
   Any run of writes, reads and closes, whatever copies fail: every operation gets the reply it is owed, and the bytes
   taken out, each delivered to a reader or lost by a failed copy, followed by what the ring still holds, are the bytes
   reported written, in order.
   */
  method Run(ops: seq<Op>) returns (log: Log, left: seq<Byte>)
    ensures OpsOf(log) == ops && AllOwed(log)
    ensures Taken(log) + left == Written(log)
  {
    var bus := new SocketBus();
    log := PerformAll(bus, ops);
    var all := new Byte[BUFFER_SIZE](i => 0);
    var n := bus.buffer.PopSlice(all, BUFFER_SIZE);
    left := all[..n];
  }

  /** The log accounts for the state of the bus. */
  predicate Accounts(log: Log, closed: bool, accepted: seq<Byte>, taken: seq<Byte>) {
    AllOwed(log) && closed == Closed(log) && accepted == Written(log) && taken == Taken(log)
  }

  lemma AccountsNext(log: Log, closed: bool, accepted: seq<Byte>, taken: seq<Byte>, op: Op, r: Reply)
    requires Accounts(log, closed, accepted, taken) && Due(op, r, closed, accepted, taken)
    ensures Accounts(Then(log, op, r), Closes(op, closed), accepted + Wrote(op, r), taken + r.out + r.lost)
    ensures OpsOf(Then(log, op, r)) == OpsOf(log) + [op]
  {
  }

  lemma Prefix(ops: seq<Op>, i: nat)
    requires i < |ops|
    ensures ops[..i + 1] == ops[..i] + [ops[i]]
  {
  }

  method PerformAll(bus: SocketBus, ops: seq<Op>) returns (log: Log)
    requires bus.Valid() && bus.accepted == [] && bus.taken == [] && !bus.isClosed
    modifies bus, bus.buffer, bus.buffer.data
    ensures bus.Valid() && OpsOf(log) == ops && Accounts(log, bus.isClosed, bus.accepted, bus.taken)
  {
    log := Start;
    for i := 0 to |ops|
      invariant bus.Valid() && OpsOf(log) == ops[..i]
      invariant Accounts(log, bus.isClosed, bus.accepted, bus.taken)
    {
      Prefix(ops, i);
      log := PerformNext(bus, log, ops[i]);
    }
  }

  method PerformNext(bus: SocketBus, log: Log, op: Op) returns (now: Log)
    requires bus.Valid() && Accounts(log, bus.isClosed, bus.accepted, bus.taken)
    modifies bus, bus.buffer, bus.buffer.data
    ensures bus.Valid() && OpsOf(now) == OpsOf(log) + [op] && Accounts(now, bus.isClosed, bus.accepted, bus.taken)
  {
    ghost var closed, accepted, taken := bus.isClosed, bus.accepted, bus.taken;
    var r := Perform(bus, op);
    AccountsNext(log, closed, accepted, taken, op, r);
    now := Then(log, op, r);
  }

  method Perform(bus: SocketBus, op: Op) returns (r: Reply)
    requires bus.Valid()
    modifies bus, bus.buffer, bus.buffer.data
    ensures bus.Valid() && bus.taken == old(bus.taken) + r.out + r.lost
    ensures bus.accepted == old(bus.accepted) + Wrote(op, r)
    ensures Due(op, r, old(bus.isClosed), old(bus.accepted), old(bus.taken))
    ensures bus.isClosed == Closes(op, old(bus.isClosed))
  {
    match op
    case ReadOp(len, copyOk, nonblocking) =>
      var poll, out, lost := bus.Read(len, copyOk, nonblocking);
      r := Reply(poll, out, lost);
    case WriteOp(bytes, copyOk, nonblocking, closing) =>
      var poll := bus.Write(bytes, copyOk, nonblocking, closing);
      r := Reply(poll, [], []);
    case CloseOp =>
      bus.Close();
      r := Reply(Done(0), [], []);
  }

  /** The log as it was at some earlier moment. */
  predicate Earlier(early: Log, log: Log) { early == log || (log.Then? && Earlier(early, log.before)) }

  /** Nothing is accepted after the close, */
  lemma {:induction false} ClosedFreezes(early: Log, log: Log)
    requires AllOwed(log) && Earlier(early, log) && Closed(early)
    ensures Written(log) == Written(early) && Closed(log)
  {
    if early != log {
      ClosedFreezes(early, log.before);
      assert Wrote(log.op, log.reply) == [];
    }
  }

  lemma {:induction false} EarlierOwed(early: Log, log: Log)
    requires AllOwed(log) && Earlier(early, log)
    ensures AllOwed(early)
  {
    if early != log { EarlierOwed(early, log.before); }
  }

  lemma {:induction false} TakenGrows(early: Log, log: Log)
    requires Earlier(early, log)
    ensures Taken(early) <= Taken(log)
  {
    if early != log { TakenGrows(early, log.before); }
  }

  /** so at the moment a reader is told of the end, everything ever reported written has been taken out. */
  lemma EndMeansAll(early: Log, log: Log, left: seq<Byte>)
    requires AllOwed(log) && Earlier(early, log) && early.Then? && Taken(log) + left == Written(log)
    requires early.op.ReadOp? && early.op.len > 0 && early.reply.poll == Done(0)
    ensures Taken(early) == Written(log)
    ensures NoLoss(early) ==> Received(early) == Written(log)
  {
    EarlierOwed(early, log);
    ClosedFreezes(early, log);
    TakenGrows(early, log);
    assert |Taken(early)| == |Written(log)|;
    if NoLoss(early) { NothingLost(early); }
  }

  /** No read of a non-zero length met a bad pointer while the ring held something. */
  predicate Careful(log: Log) {
    log.Then? ==>
      && Careful(log.before)
      && (log.op.ReadOp? && !log.op.copyOk ==> log.op.len == 0 || |Taken(log.before)| == |Written(log.before)|)
  }

  lemma {:induction false} LossExactly(log: Log)
    requires AllOwed(log)
    ensures NoLoss(log) <==> Careful(log)
    ensures |Received(log)| <= |Taken(log)| && (|Received(log)| == |Taken(log)| <==> NoLoss(log))
  {
    if log.Then? { LossExactly(log.before); }
  }

  /** Readers get the very bytes reported written, in order, exactly when every read was careful. */
  lemma DeliveredExactly(log: Log, left: seq<Byte>)
    requires AllOwed(log) && Taken(log) + left == Written(log)
    ensures Received(log) + left == Written(log) <==> Careful(log)
  {
    LossExactly(log);
    if NoLoss(log) { NothingLost(log); }
    assert |Received(log) + left| == |Received(log)| + |left|;
  }

  /** One byte written, one failed copy: the byte is gone and the next read blocks. */
  lemma LostByte(b: Byte)
    ensures var wrote := Then(Start, WriteOp([b], true, true, false), Reply(Done(1), [], []));
            var failed := Then(wrote, ReadOp(1, false, true), Reply(Failed(InvalidPointer), [], [b]));
            var log := Then(failed, ReadOp(1, true, true), Reply(Failed(WouldBlock), [], []));
            AllOwed(log) && Written(log) == [b] && Received(log) == []
  {
    assert Accounts(Start, false, [], []) && Received(Start) == [];
    AccountsNext(Start, false, [], [], WriteOp([b], true, true, false), Reply(Done(1), [], []));
    var wrote := Then(Start, WriteOp([b], true, true, false), Reply(Done(1), [], []));
    assert AllOwed(wrote) && Written(wrote) == [b] && Taken(wrote) == [] && Received(wrote) == [] && !Closed(wrote);
    var failed := Then(wrote, ReadOp(1, false, true), Reply(Failed(InvalidPointer), [], [b]));
    assert AllOwed(failed) && Written(failed) == [b] && Taken(failed) == [b] && Received(failed) == [] &&
      !Closed(failed);
  }
}
